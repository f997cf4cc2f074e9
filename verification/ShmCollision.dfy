/** The colliding run: the other queue over the same data region writes the slot that a
    sender has filled and not yet published. Both queues start at index 0, so this is the
    first slot of either. */
module ShmCollision {

  import opened Bytes
  import opened FifoSpec
  import opened Ring
  import opened ShmProtocol
  import opened ShmRefinement

  /** Two slots of one byte, and two idle zones. */
  const Tiny: Config := Config(2, 1)

  const Born: State :=
    State(Shared(0, 0, 0, 0, 0, 0, 0, [0, 0, 0], {}), [Zone(TrySection, Idle, OK), Zone(TrySection, Idle, OK)])

  const Sender: Move := Move(0, Choice(Enqueue([5]), true, false))
  const Receiver: Move := Move(1, Choice(Dequeue(1), true, false))

  /** A schedule, the state it leads to, and what was sent and delivered on the way. */
  datatype Path = Path(schedule: seq<Move>, s: State, sent: seq<Msg>, got: seq<(nat, Msg)>)

  ghost predicate IsPath(p: Path) {
    var (s, es) := Run(Tiny, Born, p.schedule);
    s == p.s && SentMsgs(es) == p.sent && Deliveries(es) == p.got
  }

  /** One more move, to a state named. */
  lemma {:induction false} Go(p: Path, m: Move, s: State) returns (p': Path)
    requires IsPath(p) && Step(Tiny, p.s, m).0 == s
    ensures IsPath(p') && p'.s == s && p'.schedule == p.schedule + [m]
    ensures var ev := Step(Tiny, p.s, m).1;
            && p'.sent == p.sent + (if ev.Sent? then [ev.msg] else [])
            && p'.got == p.got + (if ev.Delivered? then [(ev.maxLen, ev.bytes)] else [])
  {
    var ev := Step(Tiny, p.s, m).1;
    p' := Path(p.schedule + [m], s, p.sent + (if ev.Sent? then [ev.msg] else []),
               p.got + (if ev.Delivered? then [(ev.maxLen, ev.bytes)] else []));
    assert p'.schedule[..|p.schedule|] == p.schedule;
    TraceSnoc(Run(Tiny, Born, p.schedule).1, ev);
  }

  /** Zone 0 is sending; b is the byte of the first slot. */
  function Sending(lock: int, count: int, header: nat, enq: int, b: Byte, armed: set<nat>, pc: Pc): State {
    State(Shared(lock, 0, count, header, 0, enq, 0, [0, b, 0], armed),
          [Zone(Enqueue([5]), pc, OK), Zone(TrySection, Idle, OK)])
  }

  /** Zone 0 is done and zone 1 is receiving. */
  function Receiving(lock: int, owner: int, count: int, tail: nat, armed: set<nat>, pc: Pc): State {
    State(Shared(lock, owner, count, 1, tail, 1, 0, [0, 0, 0], armed),
          [Zone(Enqueue([5]), Idle, OK), Zone(Dequeue(1), pc, OK)])
  }

  /** Zone 0 takes the lock. */
  lemma {:induction false} TakesLock() returns (p: Path)
    ensures IsPath(p) && p.s == Sending(1, 1, 0, 0, 0, {}, EnqHeader) && p.sent == [] && p.got == []
  {
    p := Path([], Born, [], []);
    p := Go(p, Sender, Sending(0, 0, 0, 0, 0, {}, LockLoad));
    p := Go(p, Sender, Sending(0, 0, 0, 0, 0, {0}, LockStore));
    p := Go(p, Sender, Sending(1, 0, 0, 0, 0, {}, SetOwner));
    p := Go(p, Sender, Sending(1, 0, 0, 0, 0, {}, LockCountLoad));
    p := Go(p, Sender, Sending(1, 0, 0, 0, 0, {}, LockCountStore(0)));
    p := Go(p, Sender, Sending(1, 1, 0, 0, 0, {}, EnqHeader));
  }

  /** Zone 0 copies its message. */
  lemma {:induction false} CopiesMessage() returns (p: Path)
    ensures IsPath(p) && p.s == Sending(1, 1, 0, 0, 5, {}, EnqCopy(1, 1, 1)) && p.sent == [] && p.got == []
  {
    p := TakesLock();
    p := Go(p, Sender, Sending(1, 1, 0, 0, 0, {}, EnqTail(1)));
    p := Go(p, Sender, Sending(1, 1, 0, 0, 0, {}, EnqAddr(1)));
    p := Go(p, Sender, Sending(1, 1, 0, 0, 0, {}, EnqCopy(1, 1, 0)));
    p := Go(p, Sender, Sending(1, 1, 0, 0, 5, {}, EnqCopy(1, 1, 1)));
  }

  /** The other queue writes that byte, and zone 0 publishes. */
  lemma {:induction false} PublishesDamage() returns (p: Path)
    ensures IsPath(p) && p.s == Sending(1, 1, 1, 0, 0, {}, EnqCountLoad) && p.sent == [[5]] && p.got == []
  {
    p := CopiesMessage();
    p := Go(p, Write(1, 0), Sending(1, 1, 0, 0, 0, {}, EnqCopy(1, 1, 1)));
    p := Go(p, Sender, Sending(1, 1, 0, 0, 0, {}, EnqPublish(1)));
    p := Go(p, Sender, Sending(1, 1, 1, 0, 0, {}, EnqCountLoad));
  }

  /** Zone 0 counts the message and releases the lock. */
  lemma {:induction false} LetsGo() returns (p: Path)
    ensures IsPath(p) && p.s == Sending(0, 1, 1, 1, 0, {}, Idle) && p.sent == [[5]] && p.got == []
  {
    p := PublishesDamage();
    p := Go(p, Sender, Sending(1, 1, 1, 0, 0, {}, EnqCountStore(0)));
    p := Go(p, Sender, Sending(1, 1, 1, 1, 0, {}, UnlockOwner(OK)));
    p := Go(p, Sender, Sending(1, 1, 1, 1, 0, {}, UnlockStore(OK)));
    p := Go(p, Sender, Sending(0, 1, 1, 1, 0, {}, Idle));
  }

  /** Zone 1 takes the lock. */
  lemma {:induction false} TakesLockToRead() returns (p: Path)
    ensures IsPath(p) && p.s == Receiving(1, 1, 1, 0, {}, LockCountLoad) && p.sent == [[5]] && p.got == []
  {
    p := LetsGo();
    p := Go(p, Receiver, Receiving(0, 0, 1, 0, {}, LockLoad));
    p := Go(p, Receiver, Receiving(0, 0, 1, 0, {1}, LockStore));
    p := Go(p, Receiver, Receiving(1, 0, 1, 0, {}, SetOwner));
    p := Go(p, Receiver, Receiving(1, 1, 1, 0, {}, LockCountLoad));
  }

  /** Zone 1 finds the queue not empty. */
  lemma {:induction false} StartsReading() returns (p: Path)
    ensures IsPath(p) && p.s == Receiving(1, 1, 2, 0, {}, DeqAddr) && p.sent == [[5]] && p.got == []
  {
    p := TakesLockToRead();
    p := Go(p, Receiver, Receiving(1, 1, 1, 0, {}, LockCountStore(1)));
    p := Go(p, Receiver, Receiving(1, 1, 2, 0, {}, DeqTail));
    p := Go(p, Receiver, Receiving(1, 1, 2, 0, {}, DeqHeader(0)));
    p := Go(p, Receiver, Receiving(1, 1, 2, 0, {}, DeqAddr));
  }

  /** Zone 1 copies the byte. */
  lemma {:induction false} ReadsDamage() returns (p: Path)
    ensures IsPath(p) && p.s == Receiving(1, 1, 2, 0, {}, DeqCopy(1, [0])) && p.sent == [[5]] && p.got == []
  {
    p := StartsReading();
    p := Go(p, Receiver, Receiving(1, 1, 2, 0, {}, DeqCopy(1, [])));
    var none: Msg := [];
    assert none + [0] == [0];
    p := Go(p, Receiver, Receiving(1, 1, 2, 0, {}, DeqCopy(1, [0])));
  }

  /** Zone 1 is delivered a byte that was never sent: without the side condition the
      queue is no FIFO. */
  lemma {:induction false} CollidingRun() returns (p: Path)
    ensures Initial(Tiny, Born) && IsPath(p) && p.sent == [[5]] && p.got == [(1, [0])]
    ensures !Harmless(Tiny, Born, p.schedule)
  {
    p := ReadsDamage();
    p := Go(p, Receiver, Receiving(1, 1, 2, 0, {}, DeqNext([0])));
    p := Go(p, Receiver, Receiving(1, 1, 2, 0, {}, DeqPublish(1, [0])));
    p := Go(p, Receiver, Receiving(1, 1, 2, 1, {}, DeqCountLoad));
    NoFifo(p);
  }

  lemma {:induction false} NoFifo(p: Path)
    requires IsPath(p) && p.sent == [[5]] && p.got == [(1, [0])]
    ensures !Harmless(Tiny, Born, p.schedule)
  {
    assert p.got[0].1[0] != p.sent[0][0];
    assert !Agrees(p.got[0].1, p.sent[0]);
    if Harmless(Tiny, Born, p.schedule) {
      RunIsFifo(Tiny, Born, p.schedule);
    }
  }
}
