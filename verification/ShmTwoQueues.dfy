/** The receive and the transmit queue of the engine: two queues, each with its own lock,
    indices and counters, over one data region. */
module ShmTwoQueues {

  import opened Bytes
  import opened FifoSpec
  import opened Ring
  import opened ShmProtocol
  import opened ShmRefinement

  /** The two queues with their zones; both see the same region. */
  datatype Joint = Joint(left: State, right: State)

  predicate OneRegion(j: Joint) {
    j.left.sh.mem == j.right.sh.mem
  }

  /** A zone of the left or of the right queue takes its next step. */
  datatype Turn = Turn(left: bool, zone: nat, choice: Choice)

  function Over(s: State, mem: seq<Byte>): State {
    s.(sh := s.sh.(mem := mem))
  }

  function StepBoth(c: Config, j: Joint, t: Turn): Joint {
    var s := Step(c, if t.left then j.left else j.right, Move(t.zone, t.choice)).0;
    if t.left then Joint(s, Over(j.right, s.sh.mem)) else Joint(Over(j.left, s.sh.mem), s)
  }

  function RunBoth(c: Config, j: Joint, ts: seq<Turn>): Joint {
    if ts == [] then j else StepBoth(c, RunBoth(c, j, ts[..|ts| - 1]), ts[|ts| - 1])
  }

  // ----- What one queue sees of the other -----

  /** Zone z is about to copy a byte into the region. */
  predicate Writes(s: State, z: nat) {
    && z < |s.zones| && s.zones[z].pc.EnqCopy?
    && s.zones[z].pc.i < |DataOf(s.zones[z].op)| && s.zones[z].pc.base + s.zones[z].pc.i < |s.sh.mem|
  }

  /** The byte that the other queue sees written when zone z of `s` takes a step. */
  function Echo(s: State, z: nat): seq<Move> {
    if Writes(s, z) then [Write(s.zones[z].pc.base + s.zones[z].pc.i, DataOf(s.zones[z].op)[s.zones[z].pc.i])] else []
  }

  lemma {:induction false} StepEchoes(c: Config, s: State, other: State, z: nat, ch: Choice)
    requires s.sh.mem == other.sh.mem
    ensures var mem := Step(c, s, Move(z, ch)).0.sh.mem;
            Over(other, mem) == if Echo(s, z) == [] then other else Step(c, other, Echo(s, z)[0]).0
  {
    assert Over(other, other.sh.mem) == other;
  }

  /** The schedule that the left queue goes through, and the right one. */
  function LeftOf(c: Config, j: Joint, ts: seq<Turn>): seq<Move> {
    if ts == [] then []
    else
      var prior, t := ts[..|ts| - 1], ts[|ts| - 1];
      LeftOf(c, j, prior) + if t.left then [Move(t.zone, t.choice)] else Echo(RunBoth(c, j, prior).right, t.zone)
  }

  function RightOf(c: Config, j: Joint, ts: seq<Turn>): seq<Move> {
    if ts == [] then []
    else
      var prior, t := ts[..|ts| - 1], ts[|ts| - 1];
      RightOf(c, j, prior) + if t.left then Echo(RunBoth(c, j, prior).left, t.zone) else [Move(t.zone, t.choice)]
  }

  lemma {:induction false} RunMore(c: Config, s: State, schedule: seq<Move>, more: seq<Move>)
    requires |more| <= 1
    ensures Run(c, s, schedule + more).0
         == if more == [] then Run(c, s, schedule).0 else Step(c, Run(c, s, schedule).0, more[0]).0
  {
    if more == [] {
      assert schedule + more == schedule;
    } else {
      assert (schedule + more)[..|schedule|] == schedule;
    }
  }

  /** Each queue of the joint run goes through a run of its own. */
  lemma {:induction false} Projects(c: Config, j: Joint, ts: seq<Turn>)
    requires OneRegion(j)
    ensures var r := RunBoth(c, j, ts);
            && OneRegion(r)
            && r.left == Run(c, j.left, LeftOf(c, j, ts)).0 && r.right == Run(c, j.right, RightOf(c, j, ts)).0
    decreases |ts|
  {
    if ts != [] {
      var prior, t := ts[..|ts| - 1], ts[|ts| - 1];
      Projects(c, j, prior);
      var r := RunBoth(c, j, prior);
      var moved := [Move(t.zone, t.choice)];
      if t.left {
        StepEchoes(c, r.left, r.right, t.zone, t.choice);
        RunMore(c, j.left, LeftOf(c, j, prior), moved);
        RunMore(c, j.right, RightOf(c, j, prior), Echo(r.left, t.zone));
      } else {
        StepEchoes(c, r.right, r.left, t.zone, t.choice);
        RunMore(c, j.right, RightOf(c, j, prior), moved);
        RunMore(c, j.left, LeftOf(c, j, prior), Echo(r.right, t.zone));
      }
    }
  }

  // ----- The side condition -----

  /** A zone copies only into a slot that is idle in the other queue. */
  predicate Apart(c: Config, s: State, other: State, z: nat) {
    Writes(s, z) ==> SlotIsIdle(c, other, s.sh.header)
  }

  predicate AlwaysApart(c: Config, j: Joint, ts: seq<Turn>) {
    ts == [] ||
    (var prior, t := ts[..|ts| - 1], ts[|ts| - 1];
     && AlwaysApart(c, j, prior)
     && var r := RunBoth(c, j, prior);
     && if t.left then Apart(c, r.left, r.right, t.zone) else Apart(c, r.right, r.left, t.zone))
  }

  lemma {:induction false} HarmlessMore(c: Config, s: State, schedule: seq<Move>, more: seq<Move>)
    requires |more| <= 1 && Harmless(c, s, schedule)
    requires more != [] && more[0].Write? ==>
               var (mid, es) := Run(c, s, schedule); !MessageByte(c, mid, ApplyAll(Start, es).queue, more[0].at)
    ensures Harmless(c, s, schedule + more)
  {
    if more == [] {
      assert schedule + more == schedule;
    } else {
      assert (schedule + more)[..|schedule|] == schedule;
    }
  }

  /** The byte a zone copies into an idle slot of the other queue is no message byte there. */
  lemma {:induction false} EchoIsHarmless(c: Config, s: State, a: Spec, other: State, b: Spec, z: nat)
    requires Rel(c, s, a) && Rel(c, other, b) && Apart(c, s, other, z) && Writes(s, z)
    ensures !MessageByte(c, other, b.queue, Echo(s, z)[0].at)
  {
    assert ZoneOk(c, s.sh, z, s.zones[z], a);
    OtherSlotIsBeside(c, other, b, s.sh.header, s.zones[z].pc.i);
  }

  /** As long as a zone copies only into slots that are idle in the other queue, each queue
      sees only harmless writes of the other. */
  lemma {:induction false} BothHarmless(c: Config, j: Joint, ts: seq<Turn>)
    requires Initial(c, j.left) && Initial(c, j.right) && OneRegion(j) && AlwaysApart(c, j, ts)
    ensures Harmless(c, j.left, LeftOf(c, j, ts)) && Harmless(c, j.right, RightOf(c, j, ts))
    decreases |ts|
  {
    if ts != [] {
      var prior, t := ts[..|ts| - 1], ts[|ts| - 1];
      BothHarmless(c, j, prior);
      Projects(c, j, prior);
      var r, ls, rs := RunBoth(c, j, prior), LeftOf(c, j, prior), RightOf(c, j, prior);
      RunRefines(c, j.left, ls);
      RunRefines(c, j.right, rs);
      var la, ra := ApplyAll(Start, Run(c, j.left, ls).1), ApplyAll(Start, Run(c, j.right, rs).1);
      if t.left {
        if Writes(r.left, t.zone) { EchoIsHarmless(c, r.left, la, r.right, ra, t.zone); }
        HarmlessMore(c, j.left, ls, [Move(t.zone, t.choice)]);
        HarmlessMore(c, j.right, rs, Echo(r.left, t.zone));
      } else {
        if Writes(r.right, t.zone) { EchoIsHarmless(c, r.right, ra, r.left, la, t.zone); }
        HarmlessMore(c, j.right, rs, [Move(t.zone, t.choice)]);
        HarmlessMore(c, j.left, ls, Echo(r.right, t.zone));
      }
    }
  }

  /** What was sent and delivered on a queue is first in, first out. */
  ghost predicate Fifo(c: Config, s: State, schedule: seq<Move>) {
    var (s', es) := Run(c, s, schedule);
    && var (sent, got) := (SentMsgs(es), Deliveries(es));
    && |got| <= |sent|
    && (forall k :: 0 <= k < |got| ==> Agrees(got[k].1, sent[k]))
    && (forall k :: 0 <= k < |got| && got[k].0 >= |sent[k]| ==> sent[k] <= got[k].1)
    && RingOk(c, s'.sh.mem, s'.sh.header, s'.sh.tail, sent[|got|..])
  }

  /** Two queues over one region, zones of both interleaved at will: both are FIFO as long
      as no zone copies into a slot that is pending, or being filled, in the other queue. */
  lemma {:induction false} BothFifo(c: Config, j: Joint, ts: seq<Turn>)
    requires Initial(c, j.left) && Initial(c, j.right) && OneRegion(j) && AlwaysApart(c, j, ts)
    ensures Fifo(c, j.left, LeftOf(c, j, ts)) && Fifo(c, j.right, RightOf(c, j, ts))
    ensures var r := RunBoth(c, j, ts);
            r.left == Run(c, j.left, LeftOf(c, j, ts)).0 && r.right == Run(c, j.right, RightOf(c, j, ts)).0
  {
    BothHarmless(c, j, ts);
    Projects(c, j, ts);
    RunIsFifo(c, j.left, LeftOf(c, j, ts));
    RunIsFifo(c, j.right, RightOf(c, j, ts));
  }
}
