/** The structures that proxy messages carry, field by field, and that the length tables of
    builder and dispatcher are theirs. */
module WireLayout {

  import opened Bytes
  import opened ShmLayout
  import opened Wire
  import opened WireReceive

  /** Widths of the fields of a packed structure. */
  type Layout = seq<nat>

  function Size(fields: Layout): nat {
    if fields == [] then 0 else fields[0] + Size(fields[1..])
  }

  const NoFields: Layout := []
  const DevMsgMask: Layout := [2]
  const DevMsgReport: Layout := [1, 1, 2]
  const StrgyCmd: Layout := [2]
  const StatusAndCode: Layout := [1, 1]
  const SessParaIPv4: Layout := [2, 2, 4, 2]
  const SessParaIPv6: Layout := [2, 2, 16, 2]

  lemma {:induction false} Sizes()
    ensures Size(NoFields) == 0 && Size(DevMsgMask) == 2 && Size(StatusAndCode) == 2 && Size(DevMsgReport) == 4
    ensures Size(SessParaIPv4) == 10 && Size(SessParaIPv6) == 22
  {
    Size3(1, 1, 2);
    Size3(1, 2, 1);
    Size3(2, 4, 2);
    Size3(2, 16, 2);
    SizeCons(1, [1]);
    SizeCons(2, [2, 4, 2]);
    SizeCons(2, [2, 16, 2]);
    assert [1] + [1] == StatusAndCode && [2] + [2, 4, 2] == SessParaIPv4 && [2] + [2, 16, 2] == SessParaIPv6;
  }

  // ----- Control messages -----

  const DISABLE: nat := 0
  const ENABLE: nat := 1
  const QUERY: nat := 2

  const STRGY_SET: nat := 0
  const STRGY_QUERY: nat := 1

  /** The structure a device message of this type carries, if there is one. */
  predicate DevCarries(kind: nat, action: nat, fields: Layout) {
    || ((kind == ENABLE || kind == DISABLE) && action == COMMAND && fields == DevMsgMask)
    || ((kind == ENABLE || kind == DISABLE) && action == RESPONSE && fields == StatusAndCode)
    || (kind == QUERY && action == COMMAND && fields == NoFields)
    || (kind == QUERY && action == RESPONSE && fields == DevMsgReport)
  }

  predicate StrgyCarries(kind: nat, action: nat, fields: Layout) {
    || (kind == STRGY_SET && action == COMMAND && fields == StrgyCmd)
    || (kind == STRGY_SET && action == RESPONSE && fields == StatusAndCode)
    || (kind == STRGY_QUERY && action == COMMAND && fields == NoFields)
    || (kind == STRGY_QUERY && action == RESPONSE && fields == DevMsgReport)
  }

  predicate SessCarries(kind: nat, action: nat, ip: nat, fields: Layout) {
    || (kind == SESS_CLOSE && action == COMMAND && fields == NoFields)
    || (kind == SESS_CLOSE && action == RESPONSE && fields == StatusAndCode)
    || (kind == SESS_CREATE && action == RESPONSE && fields == StatusAndCode)
    || (kind == SESS_CREATE && action == COMMAND && ip == 4 && fields == SessParaIPv4)
    || (kind == SESS_CREATE && action == COMMAND && ip == 6 && fields == SessParaIPv6)
  }

  /** The builder takes a device message exactly with the structure of its type. */
  lemma {:induction false} DevBuildsIff(h: Header, n: nat)
    requires h.kind == DEV
    ensures Buildable(h, n) <==>
            n == h.inner[4] && exists fields :: DevCarries(h.inner[1], h.inner[3], fields) && n == Size(fields)
  {
    Sizes();
    var kind, action := h.inner[1], h.inner[3];
    assert kind <= 1 && action == COMMAND ==> DevCarries(kind, action, DevMsgMask);
    assert kind <= 1 && action == RESPONSE ==> DevCarries(kind, action, StatusAndCode);
    assert kind == 2 && action == COMMAND ==> DevCarries(kind, action, NoFields);
    assert kind == 2 && action == RESPONSE ==> DevCarries(kind, action, DevMsgReport);
  }

  /** A session message likewise. */
  lemma {:induction false} SessBuildsIff(h: Header, n: nat)
    requires h.kind == SESS
    ensures Buildable(h, n) <==>
            n == h.inner[4]
            && exists fields :: SessCarries(h.inner[1], h.inner[2], h.inner[3], fields) && n == Size(fields)
  {
    Sizes();
    var kind, action, ip := h.inner[1], h.inner[2], h.inner[3];
    assert kind == SESS_CLOSE && action == COMMAND ==> SessCarries(kind, action, ip, NoFields);
    assert kind == SESS_CLOSE && action == RESPONSE ==> SessCarries(kind, action, ip, StatusAndCode);
    assert kind == SESS_CREATE && action == RESPONSE ==> SessCarries(kind, action, ip, StatusAndCode);
    assert kind == SESS_CREATE && action == COMMAND && ip == 4 ==> SessCarries(kind, action, ip, SessParaIPv4);
    assert kind == SESS_CREATE && action == COMMAND && ip == 6 ==> SessCarries(kind, action, ip, SessParaIPv6);
  }

  /** A strategy message is measured as a device message: with its own structure it is built
      exactly when it is of the SET type. */
  lemma {:induction false} StrgyBuildsIff(h: Header, fields: Layout)
    requires h.kind == STRGY && StrgyCarries(h.inner[1], h.inner[3], fields) && h.inner[4] == Size(fields)
    ensures Buildable(h, Size(fields)) <==> h.inner[1] == STRGY_SET
  {
    Sizes();
  }

  /** The parameters of a create command, laid out field by field, are what the builder takes. */
  lemma {:induction false} CreateBuilds(h: Header, q: SessPara)
    requires CreateCommand(h, q)
    ensures Buildable(h, |ParaBytes(q)|)
  {
  }

  /** Where the fields of the parameters are: device, transport protocol, address, port. */
  lemma {:induction false} ParaLayout(q: SessPara)
    requires ValidPara(q)
    ensures var b, n := ParaBytes(q), |q.addr|;
            && |b| == 6 + n && Word(b, 0) == q.dev && Word(b, 2) == q.proto && b[4..4 + n] == q.addr
            && Word(b, 4 + n) == q.port
  {
    var b, n := ParaBytes(q), |q.addr|;
    var ws: seq<Half> := [q.dev, q.proto];
    assert b[0..4] == Words(ws) && b[4 + n..6 + n] == Words([q.port]);
    WordAt(b, 0, ws, 0);
    WordAt(b, 0, ws, 1);
    WordAt(b, 4 + n, [q.port], 0);
  }

  /** The header of an active create command for parameters q. */
  predicate CreateCommand(h: Header, q: SessPara) {
    && ValidPara(q) && h.kind == SESS && h.back == HANDOVER
    && h.inner[0] == 1 && h.inner[1] == SESS_CREATE && h.inner[2] == COMMAND
    && h.inner[3] == q.ip && h.inner[4] == |ParaBytes(q)|
  }

  function CreateMessage(h: Header, q: SessPara): seq<Byte>
    requires CreateCommand(h, q)
  {
    CreateBuilds(h, q);
    Message(h, ParaBytes(q))
  }

  /** For every such header and all valid parameters the message is built, and its receiver
      gets the parameters unchanged. */
  lemma {:induction false} CreateArrives(mem: seq<Byte>, h: Header, q: SessPara, ready: set<nat>)
    requires CreateCommand(h, q) && |mem| >= LEAST && CreateMessage(h, q) <= mem
    ensures Receive(mem, ready) == CreateActive(h.front, q)
  {
    CreateBuilds(h, q);
    ParametersDelivered(mem, h, q, ready);
  }

  // ----- Any block -----

  /** What the dispatcher does with any block that says it is a device message, built here
      or not: it is taken exactly when it is a version-1 command between the admin sessions
      whose length is that of the structure of its type. */
  lemma {:induction false} DevTakenIff(mem: seq<Byte>, ready: set<nat>)
    requires |mem| >= LEAST && mem[1] == DEV
    ensures Receive(mem, ready) == DevCommand(Word(mem, 10), Word(mem, 12), 18, Word(mem, 16))
        <==> Word(mem, 2) == 0 && Word(mem, 4) == 0 && Word(mem, 8) == 1 && Word(mem, 14) == COMMAND
             && exists fields :: DevCarries(Word(mem, 10), COMMAND, fields) && Word(mem, 16) == Size(fields)
    ensures Receive(mem, ready).DevCommand? || Receive(mem, ready) == Reject
  {
    Sizes();
    var kind := Word(mem, 10);
    assert kind <= 1 ==> DevCarries(kind, COMMAND, DevMsgMask);
    assert kind == 2 ==> DevCarries(kind, COMMAND, NoFields);
  }

  lemma {:induction false} StrgyTakenIff(mem: seq<Byte>, ready: set<nat>)
    requires |mem| >= LEAST && mem[1] == STRGY
    ensures Receive(mem, ready) == StrgyCommand(Word(mem, 10), Word(mem, 12), 18, Word(mem, 16))
        <==> Word(mem, 2) == 0 && Word(mem, 4) == 0 && Word(mem, 8) == 1 && Word(mem, 14) == COMMAND
             && exists fields :: StrgyCarries(Word(mem, 10), COMMAND, fields) && Word(mem, 16) == Size(fields)
    ensures Receive(mem, ready).StrgyCommand? || Receive(mem, ready) == Reject
  {
    Sizes();
    var kind := Word(mem, 10);
    assert kind == 0 ==> StrgyCarries(kind, COMMAND, StrgyCmd);
    assert kind == 1 ==> StrgyCarries(kind, COMMAND, NoFields);
  }

  /** A session message that is not rejected is of version 1 and as long as the structure of
      its type. */
  lemma {:induction false} SessTakenOnly(mem: seq<Byte>, ready: set<nat>)
    requires |mem| >= LEAST && mem[1] == SESS && Receive(mem, ready) != Reject
    ensures Word(mem, 8) == 1
    ensures exists fields ::
              SessCarries(Word(mem, 10), Word(mem, 12), Word(mem, 14), fields) && Word(mem, 16) == Size(fields)
  {
    Sizes();
    var kind, action, ip := Word(mem, 10), Word(mem, 12), Word(mem, 14);
    var fields := if kind == SESS_CLOSE && action == COMMAND then NoFields else if action == RESPONSE then StatusAndCode
                  else if ip == 4 then SessParaIPv4 else SessParaIPv6;
    assert SessCarries(kind, action, ip, fields);
  }

  // ----- IoT addresses -----

  const IotBtAddr: Layout := [18, 2]
  const IotCanAddr: Layout := [2, 4, 1]
  const IotZigbeeAddr: Layout := [8, 2, 1]
  const IotLoraAddr: Layout := [8, 2, 1]
  const IotPowerLinkAddr: Layout := [2, 6, 2]
  const IotModbusTcpAddr: Layout := [4, 2, 1, 2, 2]

  /** The address structure of each IoT protocol. */
  predicate AddrStruct(proto: nat, fields: Layout) {
    || (proto == BLUETOOTH && fields == IotBtAddr)
    || (proto == CAN && fields == IotCanAddr)
    || (proto == ZIGBEE && fields == IotZigbeeAddr)
    || (proto == LORA && fields == IotLoraAddr)
    || (proto == POWERLINK && fields == IotPowerLinkAddr)
    || (proto == MODBUS && fields == IotModbusTcpAddr)
  }

  lemma {:induction false} SizeCons(a: nat, rest: Layout)
    ensures Size([a] + rest) == a + Size(rest)
  {
    assert ([a] + rest)[1..] == rest;
  }

  lemma {:induction false} AddrSizes()
    ensures Size(IotBtAddr) == 20 && Size(IotCanAddr) == 7 && Size(IotZigbeeAddr) == 11 && Size(IotLoraAddr) == 11
    ensures Size(IotPowerLinkAddr) == 10 && Size(IotModbusTcpAddr) == 11
  {
    Size3(18, 2, 0);
    Size3(2, 4, 1);
    Size3(8, 2, 1);
    Size3(2, 6, 2);
    Size3(1, 2, 2);
    SizeCons(2, [1, 2, 2]);
    SizeCons(4, [2, 1, 2, 2]);
    SizeCons(18, [2]);
    assert [4] + [2, 1, 2, 2] == IotModbusTcpAddr && [2] + [1, 2, 2] == [2, 1, 2, 2] && [18] + [2] == IotBtAddr;
  }

  lemma {:induction false} Size3(a: nat, b: nat, c: nat)
    ensures Size([a, b, c]) == a + b + c && Size([b]) == b
  {
    SizeCons(c, []);
    SizeCons(b, []);
    SizeCons(b, [c]);
    SizeCons(a, [b, c]);
    assert [c] + [] == [c] && [b] + [] == [b] && [b] + [c] == [b, c] && [a] + [b, c] == [a, b, c];
  }

  /** The address length is that of the structure, and 0 exactly when there is none. */
  lemma {:induction false} AddrSizeIs(proto: nat)
    ensures forall fields :: AddrStruct(proto, fields) ==> AddrSize(proto) == Size(fields)
    ensures AddrSize(proto) == 0 <==> forall fields :: !AddrStruct(proto, fields)
  {
    AddrSizes();
    if AddrSize(proto) > 0 {
      var fields := StructOf(proto);
      assert AddrStruct(proto, fields);
    }
  }

  lemma {:induction false} StructOf(proto: nat) returns (fields: Layout)
    requires AddrSize(proto) > 0
    ensures AddrStruct(proto, fields)
  {
    fields := if proto == BLUETOOTH then IotBtAddr else if proto == CAN then IotCanAddr
              else if proto == ZIGBEE then IotZigbeeAddr else if proto == LORA then IotLoraAddr
              else if proto == POWERLINK then IotPowerLinkAddr else IotModbusTcpAddr;
  }

  // ----- What becomes of an IoT message -----

  /** The largest address and payload together that a handler sends, as the protocols have it. */
  predicate WithinLimit(proto: nat, n: nat) {
    (proto == BLUETOOTH && n <= 244) || (proto == CAN && n <= 64) || (proto == MODBUS && n <= 253)
  }

  /** A message whose address was given whole, and whose length fits 16 bits. Bluetooth, CAN
      and Modbus send out the address put in, from where the payload put in is found, if
      and only if the session is up and the limit holds; the length is that of the payload,
      and for Modbus that of address and payload. The other three are taken if and only if
      their session is up, and nothing is sent. */
  lemma {:induction false} IotFate(mem: seq<Byte>, h: Header, p: seq<Byte>, ready: set<nat>)
    requires Carries(mem, h, p) && h.kind == IOT && |p| + 32 < U16
    requires h.addrLen == 0 || h.addrLen >= AddrSize(h.inner[1])
    ensures var proto, full := h.inner[1], AddrSize(h.inner[1]);
            && 20 + full + |p| <= |mem| && mem[20 + full..20 + full + |p|] == p
            && Receive(mem, ready)
               == if proto !in ready then Reject
                  else if proto == ZIGBEE || proto == LORA || proto == POWERLINK then IotAccepted(proto)
                  else if !WithinLimit(proto, full + |p|) then Reject
                  else IotSend(proto, h.addr[..full], 20 + full, if proto == MODBUS then full + |p| else |p|)
  {
    OuterRecovered(mem, h, p);
    IotRecovered(mem, h, p);
    IotDispatched(mem, ready);
    SmallSums(|p|, AddrSize(h.inner[1]));
    var fields := StructOf(h.inner[1]);
    AddrSizeIs(h.inner[1]);
    IotTakenIff(mem, ready, h.inner[1], fields);
  }

  lemma {:induction false} SmallSums(n: nat, full: nat)
    requires full <= 20 && n + 32 < U16
    ensures (n + 12 + full) % U16 == n + 12 + full && (n + full) % U16 == n + full
  {
  }

  /** What the dispatcher does with any block of IoT type, built here or not. */
  lemma {:induction false} IotTakenIff(mem: seq<Byte>, ready: set<nat>, proto: nat, fields: Layout)
    requires |mem| >= LEAST && mem[1] == IOT && Word(mem, 10) == proto && AddrStruct(proto, fields)
    ensures 20 + Size(fields) <= |mem|
    ensures var full, inner := Size(fields), Word(mem, 16);
            Receive(mem, ready)
            == if Word(mem, 6) < 12 + full || proto !in ready then Reject
               else if proto == ZIGBEE || proto == LORA || proto == POWERLINK then IotAccepted(proto)
               else if inner < full || !WithinLimit(proto, inner) then Reject
               else IotSend(proto, mem[20..20 + full], 20 + full, if proto == MODBUS then inner else inner - full)
  {
    AddrSizeIs(proto);
    IotDispatched(mem, ready);
  }

  /** A block of IoT type without a known protocol is rejected. */
  lemma {:induction false} UnknownProtocol(mem: seq<Byte>, ready: set<nat>)
    requires |mem| >= LEAST && mem[1] == IOT && forall fields :: !AddrStruct(Word(mem, 10), fields)
    ensures Receive(mem, ready) == Reject
  {
    AddrSizeIs(Word(mem, 10));
    IotDispatched(mem, ready);
  }

  lemma {:induction false} IotDispatched(mem: seq<Byte>, ready: set<nat>)
    requires |mem| >= LEAST && mem[1] == IOT
    ensures Receive(mem, ready) == ReceiveIot(mem, ready, Word(mem, 6))
  {
  }

  /** A message whose address was given with fewer bytes than the protocol's: so many of them
      are sent, the payload right behind them, and the inner length counts both. */
  lemma {:induction false} IotCut(mem: seq<Byte>, h: Header, p: seq<Byte>)
    requires Carries(mem, h, p) && h.kind == IOT && 0 < h.addrLen < AddrSize(h.inner[1])
    ensures 20 + h.addrLen + |p| <= |mem| && h.addrLen <= 20
    ensures mem[20..20 + h.addrLen] == h.addr[..h.addrLen]
    ensures mem[20 + h.addrLen..20 + h.addrLen + |p|] == p && Word(mem, 16) == (|p| + h.addrLen) % U16
  {
    IotRecovered(mem, h, p);
  }

  /** Blocks of no known type are rejected. */
  lemma {:induction false} UnknownRejected(mem: seq<Byte>, ready: set<nat>)
    requires |mem| >= LEAST && mem[1] > 4
    ensures Receive(mem, ready) == Reject
  {
  }

  /** The 16-bit words of the headers are little-endian, like the fields of the queue's
      control page. */
  lemma {:induction false} WordsAreLE(ws: seq<Half>, k: nat)
    requires k < |ws|
    ensures Words(ws)[2 * k..2 * k + 2] == ToLE(ws[k], 2)
    decreases k
  {
    var w := ws[0];
    assert ToLE(w, 2) == [w % 256] + ToLE(w / 256, 1) && ToLE(w / 256, 1) == [w / 256 % 256] + ToLE(w / 256 / 256, 0);
    if k > 0 {
      WordsAreLE(ws[1..], k - 1);
      assert Words(ws)[2 * k..2 * k + 2] == Words(ws[1..])[2 * (k - 1)..2 * (k - 1) + 2];
    }
  }
}
