/** The abstract object that the HyperAMP queue has to look like from outside:
    a bounded first-in first-out queue of messages whose operations are
    serialised by one lock.  Everything here is independent of indices, slots,
    exclusive monitors and byte copies. */
module FifoSpec {

  import opened Bytes

  type Msg = seq<Byte>

  /** Who is inside the critical section, and whether the operation has already
      taken effect (and with which return code). */
  datatype Phase =
    | Free
    | Held(zone: nat)
    | Finished(zone: nat, code: int)

  /** What an observer of shared memory sees happen.  A slot that is allocated for filling
      in place is sent as an empty message, of which no byte is promised, and a slot that is
      released without being copied is delivered as no bytes.  `Fault` is an access outside
      the mapped data region; the specification never allows it. */
  datatype Event =
    | Silent
    | Acquire(zone: nat)
    | Release(zone: nat, code: int)
    | Sent(zone: nat, msg: Msg)
    | Full(zone: nat, code: int)
    | Delivered(zone: nat, maxLen: nat, bytes: Msg)
    | Peeked(zone: nat, maxLen: nat, bytes: Msg)
    | Empty(zone: nat, code: int)
    | Fault(zone: nat)

  datatype Spec = Spec(queue: seq<Msg>, phase: Phase)

  function Min(a: nat, b: nat): nat {
    if a < b then a else b
  }

  /** `bytes` and `msg` do not differ where both are defined. */
  predicate Agrees(bytes: Msg, msg: Msg) {
    forall i :: 0 <= i < Min(|bytes|, |msg|) ==> bytes[i] == msg[i]
  }

  /** A reader asking for `maxLen` bytes of the front message gets the front
      message, followed by whatever else the block holds. */
  predicate ReadOf(blockSize: nat, maxLen: nat, bytes: Msg, msg: Msg) {
    && |bytes| == Min(maxLen, blockSize)
    && |msg| <= blockSize
    && Agrees(bytes, msg)
  }

  /** When the atomic queue of capacity `capacity` may perform `ev`. */
  predicate Enabled(capacity: nat, blockSize: nat, a: Spec, ev: Event) {
    match ev
    case Silent => true
    case Acquire(z) => a.phase == Free
    case Release(z, code) =>
      a.phase == Finished(z, code) || (a.phase == Held(z) && code == OK)
    case Sent(z, msg) =>
      a.phase == Held(z) && |a.queue| + 1 < capacity && |msg| <= blockSize
    case Full(z, code) => a.phase == Held(z) && |a.queue| + 1 == capacity
    case Delivered(z, maxLen, bytes) =>
      a.phase == Held(z) && a.queue != [] && ReadOf(blockSize, maxLen, bytes, a.queue[0])
    case Peeked(z, maxLen, bytes) =>
      a.phase == Held(z) && a.queue != [] && ReadOf(blockSize, maxLen, bytes, a.queue[0])
    case Empty(z, code) => a.phase == Held(z) && a.queue == []
    case Fault(z) => false
  }

  function Apply(a: Spec, ev: Event): Spec {
    match ev
    case Silent => a
    case Acquire(z) => a.(phase := Held(z))
    case Release(z, code) => a.(phase := Free)
    case Sent(z, msg) => Spec(a.queue + [msg], Finished(z, OK))
    case Full(z, code) => a.(phase := Finished(z, code))
    case Delivered(z, maxLen, bytes) =>
      Spec(if a.queue == [] then [] else a.queue[1..], Finished(z, OK))
    case Peeked(z, maxLen, bytes) => a.(phase := Finished(z, OK))
    case Empty(z, code) => a.(phase := Finished(z, code))
    case Fault(z) => a
  }

  const Start: Spec := Spec([], Free)

  /** The atomic queue can perform the whole trace, one event after another. */
  predicate Accepts(capacity: nat, blockSize: nat, a: Spec, es: seq<Event>)
    decreases |es|
  {
    es == [] ||
    (Enabled(capacity, blockSize, a, es[0]) && Accepts(capacity, blockSize, Apply(a, es[0]), es[1..]))
  }

  function ApplyAll(a: Spec, es: seq<Event>): Spec
    decreases |es|
  {
    if es == [] then a else ApplyAll(Apply(a, es[0]), es[1..])
  }

  /** Extending an accepted trace by one enabled event. */
  lemma {:induction false} AcceptsSnoc(capacity: nat, blockSize: nat, a: Spec, es: seq<Event>, ev: Event)
    requires Accepts(capacity, blockSize, a, es)
    requires Enabled(capacity, blockSize, ApplyAll(a, es), ev)
    ensures Accepts(capacity, blockSize, a, es + [ev])
    ensures ApplyAll(a, es + [ev]) == Apply(ApplyAll(a, es), ev)
    decreases |es|
  {
    if es == [] {
      assert ([] + [ev])[1..] == [];
      assert Accepts(capacity, blockSize, Apply(a, ev), []);
    } else {
      AcceptsSnoc(capacity, blockSize, Apply(a, es[0]), es[1..], ev);
      assert (es + [ev])[1..] == es[1..] + [ev];
    }
  }

  /** Every prefix of an accepted trace is accepted and enables the next event. */
  lemma {:induction false} AcceptsPrefix(capacity: nat, blockSize: nat, a: Spec, es: seq<Event>, n: nat)
    requires Accepts(capacity, blockSize, a, es) && n < |es|
    ensures Accepts(capacity, blockSize, a, es[..n])
    ensures Enabled(capacity, blockSize, ApplyAll(a, es[..n]), es[n])
    decreases n
  {
    if n > 0 {
      AcceptsPrefix(capacity, blockSize, Apply(a, es[0]), es[1..], n - 1);
      assert es[..n][1..] == es[1..][..n - 1];
    }
  }

  predicate Effect(ev: Event) {
    ev.Sent? || ev.Full? || ev.Delivered? || ev.Peeked? || ev.Empty?
  }

  /** Zone z took the lock at position j and nothing has happened since. */
  predicate HoldsSince(es: seq<Event>, z: nat, j: nat) {
    && j < |es| && es[j] == Acquire(z)
    && forall k :: j < k < |es| ==> es[k] == Silent
  }

  lemma {:induction false} HeldMeansAcquired(capacity: nat, blockSize: nat, es: seq<Event>, z: nat) returns (j: nat)
    requires Accepts(capacity, blockSize, Start, es) && ApplyAll(Start, es).phase == Held(z)
    ensures HoldsSince(es, z, j)
    decreases |es|
  {
    var n := |es| - 1;
    AcceptsPrefix(capacity, blockSize, Start, es, n);
    AcceptsSnoc(capacity, blockSize, Start, es[..n], es[n]);
    assert es == es[..n] + [es[n]];
    if es[n].Acquire? {
      j := n;
    } else {
      assert es[n] == Silent;
      j := HeldMeansAcquired(capacity, blockSize, es[..n], z);
    }
  }

  /** Operations take effect in lock-acquisition order: from the moment its zone
      took the lock up to the effect, nobody else does anything. */
  lemma {:induction false} EffectsFollowAcquisition(capacity: nat, blockSize: nat, es: seq<Event>, i: nat)
    requires Accepts(capacity, blockSize, Start, es) && i < |es| && Effect(es[i])
    ensures exists j: nat :: HoldsSince(es[..i], es[i].zone, j)
  {
    AcceptsPrefix(capacity, blockSize, Start, es, i);
    var j := HeldMeansAcquired(capacity, blockSize, es[..i], es[i].zone);
  }

  /** The code with which an operation that had this effect returns. */
  function CodeOf(ev: Event): int {
    match ev
    case Full(_, code) => code
    case Empty(_, code) => code
    case _ => OK
  }

  lemma {:induction false} FinishedStays(capacity: nat, blockSize: nat, es: seq<Event>, i: nat, j: nat)
    requires Accepts(capacity, blockSize, Start, es) && i < j <= |es| && Effect(es[i])
    requires forall k :: i < k < j ==> es[k] == Silent
    ensures ApplyAll(Start, es[..j]).phase == Finished(es[i].zone, CodeOf(es[i]))
    decreases j
  {
    AcceptsPrefix(capacity, blockSize, Start, es, j - 1);
    AcceptsSnoc(capacity, blockSize, Start, es[..j - 1], es[j - 1]);
    assert es[..j] == es[..j - 1] + [es[j - 1]];
    if i + 1 < j { FinishedStays(capacity, blockSize, es, i, j - 1); }
  }

  /** From its effect on a zone keeps the lock: the next thing that happens is its own
      release, with the code that the effect calls for. */
  lemma {:induction false} ReleaseFollowsEffect(capacity: nat, blockSize: nat, es: seq<Event>, i: nat, j: nat)
    requires Accepts(capacity, blockSize, Start, es) && i < j < |es| && Effect(es[i])
    requires es[j] != Silent && forall k :: i < k < j ==> es[k] == Silent
    ensures es[j] == Release(es[i].zone, CodeOf(es[i]))
  {
    FinishedStays(capacity, blockSize, es, i, j);
    AcceptsPrefix(capacity, blockSize, Start, es, j);
  }

  /** Messages successfully enqueued, in the order in which they took effect. */
  function SentMsgs(es: seq<Event>): seq<Msg> {
    if es == [] then [] else if es[0].Sent? then [es[0].msg] + SentMsgs(es[1..]) else SentMsgs(es[1..])
  }

  /** Blocks handed to dequeuers, in the order in which they took effect, with
      the length each dequeuer asked for. */
  function Deliveries(es: seq<Event>): seq<(nat, Msg)> {
    if es == [] then []
    else if es[0].Delivered? then [(es[0].maxLen, es[0].bytes)] + Deliveries(es[1..])
    else Deliveries(es[1..])
  }

  lemma {:induction false} TraceSnoc(es: seq<Event>, ev: Event)
    ensures SentMsgs(es + [ev]) == SentMsgs(es) + if ev.Sent? then [ev.msg] else []
    ensures Deliveries(es + [ev]) == Deliveries(es) + if ev.Delivered? then [(ev.maxLen, ev.bytes)] else []
  {
    if es == [] {
      assert es + [ev] == [ev];
    } else {
      assert (es + [ev])[1..] == es[1..] + [ev];
      TraceSnoc(es[1..], ev);
    }
  }

  lemma {:induction false} TraceConcat(es: seq<Event>, more: seq<Event>)
    ensures SentMsgs(es + more) == SentMsgs(es) + SentMsgs(more)
    ensures Deliveries(es + more) == Deliveries(es) + Deliveries(more)
  {
    if es == [] {
      assert es + more == more;
    } else {
      assert (es + more)[1..] == es[1..] + more;
      TraceConcat(es[1..], more);
    }
  }

  /** An event's place among the messages, or among the blocks delivered, is how many of
      them there are before it. */
  lemma {:induction false} PlaceOf(es: seq<Event>, e: nat)
    requires e < |es|
    ensures es[e].Sent? ==> var k := |SentMsgs(es[..e])|; k < |SentMsgs(es)| && SentMsgs(es)[k] == es[e].msg
    ensures es[e].Delivered? ==>
              var k := |Deliveries(es[..e])|; k < |Deliveries(es)| && Deliveries(es)[k] == (es[e].maxLen, es[e].bytes)
  {
    assert es == es[..e] + es[e..];
    TraceConcat(es[..e], es[e..]);
  }

  /** `got` is a first-in first-out reading of `sent`. */
  ghost predicate FifoReading(blockSize: nat, sent: seq<Msg>, got: seq<(nat, Msg)>) {
    && |got| <= |sent|
    && (forall k :: 0 <= k < |got| ==> ReadOf(blockSize, got[k].0, got[k].1, sent[k]))
  }

  /** Any accepted trace delivers, in order and without loss or duplication, a
      prefix of what was waiting followed by what was sent; the rest is still waiting. */
  lemma {:induction false} AcceptedIsFifo(capacity: nat, blockSize: nat, a: Spec, es: seq<Event>)
    requires Accepts(capacity, blockSize, a, es)
    ensures FifoReading(blockSize, a.queue + SentMsgs(es), Deliveries(es))
    ensures ApplyAll(a, es).queue == (a.queue + SentMsgs(es))[|Deliveries(es)|..]
    decreases |es|
  {
    if es == [] {
      assert a.queue + SentMsgs(es) == a.queue;
    } else {
      var a' := Apply(a, es[0]);
      AcceptedIsFifo(capacity, blockSize, a', es[1..]);
      FirstEvent(capacity, blockSize, a, es);
      if es[0].Delivered? {
        ReadingCons(blockSize, a.queue[0], a'.queue + SentMsgs(es[1..]),
                    (es[0].maxLen, es[0].bytes), Deliveries(es[1..]));
      }
    }
  }

  /** The block whose delivery comes after as many others as a message was sent after is a
      reading of that message. */
  lemma {:induction false} MatchedRead(capacity: nat, blockSize: nat, es: seq<Event>, e: nat, d: nat)
    requires Accepts(capacity, blockSize, Start, es) && e < |es| && d < |es| && es[e].Sent? && es[d].Delivered?
    requires |SentMsgs(es[..e])| == |Deliveries(es[..d])|
    ensures ReadOf(blockSize, es[d].maxLen, es[d].bytes, es[e].msg)
  {
    PlaceOf(es, e);
    PlaceOf(es, d);
    AcceptedIsFifo(capacity, blockSize, Start, es);
    var sent, got, k := SentMsgs(es), Deliveries(es), |SentMsgs(es[..e])|;
    assert Start.queue + sent == sent;
    assert ReadOf(blockSize, got[k].0, got[k].1, sent[k]);
  }

  /** How the first event of a trace moves the messages. */
  lemma {:induction false} FirstEvent(capacity: nat, blockSize: nat, a: Spec, es: seq<Event>)
    requires es != [] && Enabled(capacity, blockSize, a, es[0])
    ensures var before, after := a.queue + SentMsgs(es), Apply(a, es[0]).queue + SentMsgs(es[1..]);
            if es[0].Delivered?
            then before == [a.queue[0]] + after && Deliveries(es) == [(es[0].maxLen, es[0].bytes)] + Deliveries(es[1..])
            else before == after && Deliveries(es) == Deliveries(es[1..])
  {
    var rest := SentMsgs(es[1..]);
    if es[0].Sent? {
      assert a.queue + ([es[0].msg] + rest) == (a.queue + [es[0].msg]) + rest;
    } else if es[0].Delivered? {
      assert a.queue + rest == [a.queue[0]] + (a.queue[1..] + rest);
    }
  }

  lemma {:induction false} ReadingCons(blockSize: nat, m: Msg, sent: seq<Msg>, g: (nat, Msg), got: seq<(nat, Msg)>)
    requires ReadOf(blockSize, g.0, g.1, m) && FifoReading(blockSize, sent, got)
    ensures FifoReading(blockSize, [m] + sent, [g] + got)
    ensures ([m] + sent)[|[g] + got|..] == sent[|got|..]
  {
    forall k | 0 <= k < |[g] + got| ensures ReadOf(blockSize, ([g] + got)[k].0, ([g] + got)[k].1, ([m] + sent)[k]) {
      if k > 0 { assert ([g] + got)[k] == got[k - 1] && ([m] + sent)[k] == sent[k - 1]; }
    }
  }

  /** The abstract queue never holds more than capacity - 1 messages. */
  lemma {:induction false} AcceptedIsBounded(capacity: nat, blockSize: nat, a: Spec, es: seq<Event>)
    requires Accepts(capacity, blockSize, a, es)
    requires |a.queue| < capacity
    ensures |ApplyAll(a, es).queue| < capacity
    decreases |es|
  {
    if es != [] {
      AcceptedIsBounded(capacity, blockSize, Apply(a, es[0]), es[1..]);
    }
  }
}
