/** The proxy wire format: the builder, and the dispatcher that reads what it built. */
module Wire {

  import opened Bytes

  type Half = x: int | 0 <= x < 0x1_0000

  /** The union of inner headers, as the 16-bit words it is made of. */
  type Inner = s: seq<Half> | |s| == 6 witness [0, 0, 0, 0, 0, 0]

  /** The union of IoT addresses. */
  type Addr = s: seq<Byte> | |s| == 20 witness [0, 0, 0, 0, 0, 0, 0, 0, 0, 0, 0, 0, 0, 0, 0, 0, 0, 0, 0, 0]

  /** GeneralProxyMsgHeader without its outer payload_len, which the builder computes. */
  datatype Header = Header(version: Byte, kind: Byte, front: Half, back: Half, inner: Inner, addr: Addr, addrLen: Half)

  const DEV: Byte := 0
  const STRGY: Byte := 1
  const SESS: Byte := 2
  const DATA: Byte := 3
  const IOT: Byte := 4

  const COMMAND: nat := 0
  const RESPONSE: nat := 1

  const SESS_CLOSE: nat := 0
  const SESS_CREATE: nat := 1

  const HANDOVER: nat := 0xFFFF

  const BLUETOOTH: nat := 1
  const ZIGBEE: nat := 2
  const CAN: nat := 3
  const LORA: nat := 4
  const POWERLINK: nat := 5
  const MODBUS: nat := 6

  const INVALID: int := -1

  /** No return code of the program: the bytes would not fit where it writes them, which it
      does not check. The model goes no further. */
  const OVERRUN: int := -2

  // ----- Length tables -----

  function DevLen(kind: nat, action: nat): int {
    if kind == 1 || kind == 0 then (if action == COMMAND || action == RESPONSE then 2 else INVALID)
    else if kind == 2 then (if action == COMMAND then 0 else if action == RESPONSE then 4 else INVALID)
    else INVALID
  }

  function StrgyLen(kind: nat, action: nat): int {
    if kind == 0 then (if action == COMMAND || action == RESPONSE then 2 else INVALID)
    else if kind == 1 then (if action == COMMAND then 0 else if action == RESPONSE then 4 else INVALID)
    else INVALID
  }

  function SessLen(kind: nat, action: nat, ip: nat): int {
    if kind == SESS_CLOSE then (if action == COMMAND then 0 else if action == RESPONSE then 2 else INVALID)
    else if kind == SESS_CREATE then
      if action == RESPONSE then 2
      else if action == COMMAND then (if ip == 4 then 10 else if ip == 6 then 22 else INVALID)
      else INVALID
    else INVALID
  }

  /** get_iot_addr_length: 0 for an unsupported protocol. */
  function AddrSize(proto: nat): (n: nat)
    ensures n <= 20
  {
    if proto == BLUETOOTH then 20
    else if proto == CAN then 7
    else if proto == ZIGBEE || proto == LORA || proto == MODBUS then 11
    else if proto == POWERLINK then 10
    else 0
  }

  // ----- Bytes of words -----

  /** 16-bit words, low byte first. */
  function Words(ws: seq<Half>): (s: seq<Byte>)
    ensures |s| == 2 * |ws|
  {
    if ws == [] then [] else [ws[0] % 256, ws[0] / 256] + Words(ws[1..])
  }

  function Word(mem: seq<Byte>, at: nat): (w: Half)
    requires at + 2 <= |mem|
  {
    var low: int, high: int := mem[at], mem[at + 1];
    low + 256 * high
  }

  lemma {:induction false} WordOf(ws: seq<Half>, k: nat)
    requires k < |ws|
    ensures Word(Words(ws), 2 * k) == ws[k]
  {
    if k > 0 {
      WordOf(ws[1..], k - 1);
      var tail := Words(ws[1..]);
      assert Words(ws) == [ws[0] % 256, ws[0] / 256] + tail;
      assert Words(ws)[2 * k] == tail[2 * (k - 1)] && Words(ws)[2 * k + 1] == tail[2 * (k - 1) + 1];
    }
  }

  /** A word of a header that sits at `base` in memory. */
  lemma {:induction false} WordAt(mem: seq<Byte>, base: nat, ws: seq<Half>, k: nat)
    requires k < |ws| && base + 2 * |ws| <= |mem| && mem[base..base + 2 * |ws|] == Words(ws)
    ensures Word(mem, base + 2 * k) == ws[k]
  {
    WordOf(ws, k);
    var part := mem[base..base + 2 * |ws|];
    assert part[2 * k] == mem[base + 2 * k] && part[2 * k + 1] == mem[base + 2 * k + 1];
  }

  // ----- What the builder produces -----

  /** The length checks of the builder. */
  predicate Buildable(h: Header, n: nat) {
    if h.kind == DEV || h.kind == STRGY then n == DevLen(h.inner[1], h.inner[3]) && n == h.inner[4]
    else if h.kind == SESS then n == SessLen(h.inner[1], h.inner[2], h.inner[3]) && n == h.inner[4]
    else if h.kind == DATA then true
    else h.kind == IOT && AddrSize(h.inner[1]) > 0
  }

  /** The message and IoT protocol types the builder knows; on others it returns early. */
  predicate Supported(h: Header) {
    h.kind == DEV || h.kind == STRGY || h.kind == SESS || h.kind == DATA || (h.kind == IOT && AddrSize(h.inner[1]) > 0)
  }

  /** Bytes of the address that are copied. */
  function AddrUsed(h: Header): (n: nat)
    ensures n <= AddrSize(h.inner[1])
  {
    var full := AddrSize(h.inner[1]);
    if h.addrLen > 0 && h.addrLen < full then h.addrLen else full
  }

  function Zeros(n: nat): (s: seq<Byte>)
    ensures |s| == n && forall i :: 0 <= i < n ==> s[i] == 0
  {
    if n == 0 then [] else [0] + Zeros(n - 1)
  }

  /** The inner header as it is written. */
  function InnerWords(h: Header, n: nat): (ws: seq<Half>)
    requires Buildable(h, n)
    ensures |ws| == if h.kind == DATA then 0 else if h.kind == IOT then 6 else 5
  {
    if h.kind == DATA then []
    else if h.kind == IOT then [0, h.inner[1], 0, 0, (n + AddrUsed(h)) % U16, 0]
    else h.inner[..5]
  }

  /** What the inner header and a whole address add to the payload. */
  function Extra(h: Header): nat {
    if h.kind == DATA then 0 else if h.kind == IOT then 12 + AddrSize(h.inner[1]) else 10
  }

  /** Everything behind the outer header. */
  function Body(h: Header, p: seq<Byte>): (b: seq<Byte>)
    requires Buildable(h, |p|)
    ensures |b| == |p| + Extra(h)
  {
    Words(InnerWords(h, |p|)) +
    if h.kind == IOT
    then h.addr[..AddrUsed(h)] + p + Zeros(AddrSize(h.inner[1]) - AddrUsed(h))
    else p
  }

  function OuterBytes(h: Header, len: Half): (s: seq<Byte>)
    ensures |s| == 8
  {
    [h.version, h.kind] + Words([h.front, h.back, len])
  }

  /** The message that build_proxy_general_message hands to the queue. */
  function Message(h: Header, p: seq<Byte>): seq<Byte>
    requires Buildable(h, |p|)
  {
    OuterBytes(h, |Body(h, p)| % U16) + Body(h, p)
  }

  // ----- The builder -----

  /** The buffer holds s and zeros after it. */
  ghost predicate Holds(buf: array<Byte>, s: seq<Byte>)
    reads buf
  {
    |s| <= buf.Length && buf[..|s|] == s && forall i :: |s| <= i < buf.Length ==> buf[i] == 0
  }

  /** memset to zero. */
  method Clear(buf: array<Byte>)
    modifies buf
    ensures Holds(buf, [])
  {
    for i := 0 to buf.Length
      invariant forall j :: 0 <= j < i ==> buf[j] == 0
    {
      buf[i] := 0;
    }
  }

  /** memcpy of `data` behind what has been written. */
  method Put(buf: array<Byte>, at: nat, data: seq<Byte>, ghost sofar: seq<Byte>)
    requires at == |sofar| && at + |data| <= buf.Length && Holds(buf, sofar)
    modifies buf
    ensures Holds(buf, sofar + data)
  {
    for i := 0 to |data|
      invariant buf[..at + i] == sofar + data[..i]
      invariant forall j :: at + i <= j < buf.Length ==> buf[j] == 0
    {
      buf[at + i] := data[i];
      assert data[..i + 1] == data[..i] + [data[i]];
      assert buf[..at + i + 1] == buf[..at + i] + [data[i]];
    }
    assert data[..|data|] == data;
  }

  /** proxy_msg_hdr->payload_len, filled in at the end. */
  method PutLength(buf: array<Byte>, h: Header, len: Half, ghost body: seq<Byte>)
    requires Holds(buf, OuterBytes(h, 0) + body)
    modifies buf
    ensures Holds(buf, OuterBytes(h, len) + body)
  {
    ghost var was := buf[..];
    LengthBytes(h, len);
    assert buf.Length >= 8;
    buf[6] := len % 256;
    buf[7] := len / 256;
    ghost var s := OuterBytes(h, len) + body;
    forall i | 0 <= i < |s| ensures buf[i] == s[i] {
      assert was[..|s|][i] == was[i];
    }
    assert buf[..|s|] == s;
  }

  lemma {:induction false} LengthBytes(h: Header, len: Half)
    ensures OuterBytes(h, len) == OuterBytes(h, 0)[..6] + [len % 256, len / 256]
  {
    assert Words([h.front, h.back, len]) == [h.front % 256, h.front / 256] + Words([h.back, len]);
    assert Words([h.back, len]) == [h.back % 256, h.back / 256] + Words([len]);
    assert Words([len]) == [len % 256, len / 256] + Words([]);
    assert Words([h.front, h.back, 0]) == [h.front % 256, h.front / 256] + Words([h.back, 0]);
    assert Words([h.back, 0]) == [h.back % 256, h.back / 256] + Words([0]);
  }

  /** build_proxy_dev_message, _strgy_, _sess_ and _data_: the inner header, if the type
      has one, and the payload. */
  method PutPlain(buf: array<Byte>, h: Header, p: seq<Byte>) returns (r: int)
    requires h.kind in {DEV, STRGY, SESS, DATA} && Holds(buf, OuterBytes(h, 0))
    modifies buf
    ensures r == if !Buildable(h, |p|) then ERROR else if 8 + |p| + Extra(h) > buf.Length then OVERRUN else OK
    ensures r == OK ==> Holds(buf, OuterBytes(h, 0) + Body(h, p))
  {
    if h.kind == DATA {
      if 8 + |p| > buf.Length { return OVERRUN; }
      Put(buf, 8, p, OuterBytes(h, 0));
      assert Body(h, p) == p;
      return OK;
    }
    var expected := if h.kind == SESS then SessLen(h.inner[1], h.inner[2], h.inner[3])
                    else DevLen(h.inner[1], h.inner[3]);
    if |p| != expected { return ERROR; }
    if |p| != h.inner[4] { return ERROR; }
    if 18 + |p| > buf.Length { return OVERRUN; }
    ghost var outer := OuterBytes(h, 0);
    Put(buf, 8, Words(h.inner[..4] + [|p|]), outer);
    assert h.inner[..4] + [|p|] == InnerWords(h, |p|);
    Put(buf, 18, p, outer + Words(InnerWords(h, |p|)));
    assert outer + Words(InnerWords(h, |p|)) + p == outer + Body(h, p);
    return OK;
  }

  /** build_proxy_iot_message. */
  method PutIot(buf: array<Byte>, h: Header, p: seq<Byte>) returns (r: int)
    requires h.kind == IOT && Holds(buf, OuterBytes(h, 0))
    modifies buf
    ensures r == if !Buildable(h, |p|) then ERROR else if 8 + |p| + Extra(h) > buf.Length then OVERRUN else OK
    ensures r == OK ==> Holds(buf, OuterBytes(h, 0) + Body(h, p))
  {
    var proto := h.inner[1];
    var full := AddrSize(proto);
    if full == 0 { return ERROR; }
    if 20 + full + |p| > buf.Length { return OVERRUN; }
    var used := full;
    if h.addrLen > 0 && h.addrLen < used { used := h.addrLen; }
    ghost var outer := OuterBytes(h, 0);
    var ws: seq<Half> := [0, proto, 0, 0, (|p| + used) % U16, 0];
    ghost var s1 := outer + Words(ws);
    ghost var s2 := s1 + h.addr[..used];
    ghost var s3 := s2 + p;
    Put(buf, 8, Words(ws), outer);
    Put(buf, 20, h.addr[..used], s1);
    Put(buf, 20 + used, p, s2);
    StillHolds(buf, s3, full - used);
    IotParts(h, p, outer, s1, s2, s3);
    return OK;
  }

  lemma {:induction false} IotParts(h: Header, p: seq<Byte>, outer: seq<Byte>, s1: seq<Byte>, s2: seq<Byte>,
                                    s3: seq<Byte>)
    requires h.kind == IOT && Buildable(h, |p|)
    requires s1 == outer + Words(InnerWords(h, |p|)) && s2 == s1 + h.addr[..AddrUsed(h)] && s3 == s2 + p
    ensures s3 + Zeros(AddrSize(h.inner[1]) - AddrUsed(h)) == outer + Body(h, p)
  {
  }

  lemma {:induction false} StillHolds(buf: array<Byte>, s: seq<Byte>, n: nat)
    requires Holds(buf, s) && |s| + n <= buf.Length
    ensures Holds(buf, s + Zeros(n))
  {
    var t := s + Zeros(n);
    assert forall i :: 0 <= i < |s| ==> buf[i] == buf[..|s|][i];
    assert buf[..|t|] == t;
  }

  /** build_proxy_general_message up to the hand-over to the queue; `len` is the length
      that is handed over. */
  method Build(buf: array<Byte>, h: Header, p: seq<Byte>) returns (r: int, len: nat)
    modifies buf
    ensures r == if buf.Length < 8 then OVERRUN else if !Buildable(h, |p|) then ERROR
                 else if |Message(h, p)| > buf.Length then OVERRUN else OK
    ensures r == OK ==> len <= buf.Length && buf[..len] == Message(h, p)
  {
    len := 0;
    if buf.Length < 8 { return OVERRUN, 0; }
    Clear(buf);
    Put(buf, 0, OuterBytes(h, 0), []);
    assert [] + OuterBytes(h, 0) == OuterBytes(h, 0);
    if h.kind in {DEV, STRGY, SESS, DATA} {
      r := PutPlain(buf, h, p);
    } else if h.kind == IOT {
      r := PutIot(buf, h, p);
    } else {
      r := ERROR;
    }
    if r != OK { return; }
    PutLength(buf, h, (|p| + Extra(h)) % U16, Body(h, p));
    len := |p| + Extra(h) + 8;
  }

  // ----- Building without a cleared buffer -----

  /** The outer header before its length is filled in. */
  function Stub(h: Header): (s: seq<Byte>)
    ensures |s| == 6
  {
    [h.version, h.kind] + Words([h.front, h.back])
  }

  /** The bytes that a successful build writes behind the outer header: where the address
      is cut short, what follows the payload is left as it was. */
  function Rest(h: Header, p: seq<Byte>): (b: seq<Byte>)
    requires Buildable(h, |p|)
    ensures |b| <= |p| + Extra(h)
  {
    Words(InnerWords(h, |p|)) + if h.kind == IOT then h.addr[..AddrUsed(h)] + p else p
  }

  /** All that a successful build writes. */
  function Written(h: Header, p: seq<Byte>): seq<Byte>
    requires Buildable(h, |p|)
  {
    Stub(h) + Words([(|p| + Extra(h)) % U16]) + Rest(h, p)
  }

  /** It is the message, up to the bytes a cut address leaves open. */
  lemma {:induction false} WrittenIsMessage(h: Header, p: seq<Byte>)
    requires Buildable(h, |p|)
    ensures Written(h, p) <= Message(h, p)
    ensures h.kind != IOT || AddrUsed(h) == AddrSize(h.inner[1]) ==> Written(h, p) == Message(h, p)
  {
    var len: Half := (|p| + Extra(h)) % U16;
    LengthBytes(h, len);
    StubBytes(h, len);
    var pad := if h.kind == IOT then Zeros(AddrSize(h.inner[1]) - AddrUsed(h)) else [];
    assert Body(h, p) == Rest(h, p) + pad;
    assert Message(h, p) == Written(h, p) + pad;
    assert pad == [] ==> Written(h, p) + pad == Written(h, p);
  }

  lemma {:induction false} StubBytes(h: Header, len: Half)
    ensures OuterBytes(h, len) == Stub(h) + Words([len])
  {
    assert Words([h.front, h.back, len]) == [h.front % 256, h.front / 256] + Words([h.back, len]);
    assert Words([h.back, len]) == [h.back % 256, h.back / 256] + Words([len]);
    assert Words([h.front, h.back]) == [h.front % 256, h.front / 256] + Words([h.back]);
    assert Words([h.back]) == [h.back % 256, h.back / 256] + Words([]);
  }
}
