/** What a zone that calls the HyperAMP queue is promised, operation by operation: the one
    effect that the call has, and the code that it returns, in every run. */
module ShmOperations {

  import opened Bytes
  import opened FifoSpec
  import opened Ring
  import opened ShmProgress
  import opened ShmProtocol
  import opened ShmRefinement

  // ----- The promise -----

  /** Arguments that are refused before anything is done. */
  predicate Refused(c: Config, op: Op) {
    match op
    case Enqueue(data) => data == [] || |data| > c.blockSize
    case Dequeue(n) => n == 0
    case Peek(n) => n == 0
    case AllocSlot => false
    case ReleaseSlot => false
    case TrySection => false
  }

  /** The effect `ev` and the code `code` are what `op`, called by zone z, promises. */
  predicate Fulfils(c: Config, z: nat, op: Op, ev: Event, code: int) {
    match op
    case Enqueue(data) => (ev == Sent(z, data) && code == OK) || (ev == Full(z, AGAIN) && code == AGAIN)
    case Dequeue(n) =>
      || (ev.Delivered? && ev.zone == z && ev.maxLen == n && |ev.bytes| == Min(n, c.blockSize) && code == OK)
      || (ev == Empty(z, AGAIN) && code == AGAIN)
    case Peek(n) =>
      || (ev.Peeked? && ev.zone == z && ev.maxLen == n && |ev.bytes| == Min(n, c.blockSize) && code == OK)
      || (ev == Empty(z, ERROR) && code == ERROR)
    case AllocSlot => (ev == Sent(z, []) && code == OK) || (ev == Full(z, ERROR) && code == ERROR)
    case ReleaseSlot => (ev == Delivered(z, 0, []) && code == OK) || (ev == Empty(z, ERROR) && code == ERROR)
    case TrySection => false
  }

  /** All that the zone has done inside the lock when it is about to leave with `code`. */
  predicate Inward(c: Config, z: nat, op: Op, es: seq<Event>, code: int) {
    if op.TrySection? then es == [Acquire(z)] && code == OK
    else |es| == 2 && es[0] == Acquire(z) && Fulfils(c, z, op, es[1], code)
  }

  /** All that the zone has done when its operation has returned `ret`: nothing, if a lock
      section was tried and the lock not obtained; otherwise it took the lock, had its one
      effect, and released the lock with the code it returns. */
  predicate Returned(c: Config, z: nat, op: Op, es: seq<Event>, ret: int) {
    || (op.TrySection? && es == [] && ret == AGAIN)
    || (es != [] && es[|es| - 1] == Release(z, ret) && Inward(c, z, op, es[..|es| - 1], ret))
  }

  // ----- On the way -----

  /** What zone z has done so far in its current operation. */
  predicate Underway(c: Config, z: nat, zn: Zone, op: Op, es: seq<Event>) {
    && zn.op == op
    && match zn.pc
       case Idle => Returned(c, z, op, es, zn.ret)
       case LockLoad => es == []
       case LockStore => es == []
       case SetOwner => es == [Acquire(z)]
       case LockCountLoad => es == [Acquire(z)]
       case LockCountStore(_) => es == [Acquire(z)]
       case EnqCopy(_, _, _) => op.Enqueue? && es == [Acquire(z)]
       case EnqCountLoad => Inward(c, z, op, es, OK)
       case EnqCountStore(_) => Inward(c, z, op, es, OK)
       case DeqTail => (op.Dequeue? || op.Peek? || op.ReleaseSlot?) && es == [Acquire(z)]
       case DeqHeader(_) => (op.Dequeue? || op.Peek? || op.ReleaseSlot?) && es == [Acquire(z)]
       case DeqAddr => (op.Dequeue? || op.Peek?) && es == [Acquire(z)]
       case DeqCopy(_, out) => (op.Dequeue? || op.Peek?) && |out| <= Min(op.maxLen, c.blockSize) && es == [Acquire(z)]
       case DeqNext(out) => Taken(c, op, out) && es == [Acquire(z)]
       case DeqPublish(_, out) => Taken(c, op, out) && es == [Acquire(z)]
       case DeqCountLoad => Inward(c, z, op, es, OK)
       case DeqCountStore(_) => Inward(c, z, op, es, OK)
       case UnlockOwner(code) => Inward(c, z, op, es, code)
       case UnlockStore(code) => Inward(c, z, op, es, code)
       case _ => (op.Enqueue? || op.AllocSlot?) && es == [Acquire(z)]
  }

  predicate Taken(c: Config, op: Op, out: Msg) {
    (op.Dequeue? && |out| == Min(op.maxLen, c.blockSize)) || (op.ReleaseSlot? && out == [])
  }

  function Visible(ev: Event): seq<Event> {
    if ev == Silent then [] else [ev]
  }

  /** What zone z does in a trace. */
  function OfZone(es: seq<Event>, z: nat): seq<Event> {
    if es == [] then []
    else
      var ev := es[|es| - 1];
      OfZone(es[..|es| - 1], z) + if ev != Silent && ev.zone == z then [ev] else []
  }

  /** Steps up to the start of the body. */
  lemma {:induction false} LockUnderway(c: Config, sh: Shared, z: nat, zn: Zone, ch: Choice, op: Op, es: seq<Event>)
    requires Underway(c, z, zn, op, es) && !zn.pc.Idle?
    requires !InCritical(zn.pc) || zn.pc.SetOwner? || zn.pc.LockCountLoad? || zn.pc.LockCountStore?
    ensures var o := Exec(c, sh, z, zn, ch); Underway(c, z, o.zone, op, es + Visible(o.ev))
  {
  }

  lemma {:induction false} EnqUnderway(c: Config, sh: Shared, z: nat, zn: Zone, ch: Choice, op: Op, es: seq<Event>)
    requires Underway(c, z, zn, op, es) && Enqueuing(zn.pc) && !Exec(c, sh, z, zn, ch).ev.Fault?
    ensures var o := Exec(c, sh, z, zn, ch); Underway(c, z, o.zone, op, es + Visible(o.ev))
  {
  }

  lemma {:induction false} DeqUnderway(c: Config, sh: Shared, z: nat, zn: Zone, ch: Choice, op: Op, es: seq<Event>)
    requires Underway(c, z, zn, op, es) && (Reading(zn.pc) || Removing(zn.pc)) && !Exec(c, sh, z, zn, ch).ev.Fault?
    ensures var o := Exec(c, sh, z, zn, ch); Underway(c, z, o.zone, op, es + Visible(o.ev))
  {
    if zn.pc.DeqCopy? { DeqCopyUnderway(c, sh, z, zn, ch, op, es); }
    else if Removing(zn.pc) { RemovalUnderway(c, sh, z, zn, ch, op, es); }
  }

  lemma {:induction false} DeqCopyUnderway(c: Config, sh: Shared, z: nat, zn: Zone, ch: Choice, op: Op, es: seq<Event>)
    requires Underway(c, z, zn, op, es) && zn.pc.DeqCopy? && !Exec(c, sh, z, zn, ch).ev.Fault?
    ensures var o := Exec(c, sh, z, zn, ch); Underway(c, z, o.zone, op, es + Visible(o.ev))
  {
  }

  lemma {:induction false} RemovalUnderway(c: Config, sh: Shared, z: nat, zn: Zone, ch: Choice, op: Op, es: seq<Event>)
    requires Underway(c, z, zn, op, es) && Removing(zn.pc)
    ensures var o := Exec(c, sh, z, zn, ch); Underway(c, z, o.zone, op, es + Visible(o.ev))
  {
  }

  lemma {:induction false} UnlockUnderway(c: Config, sh: Shared, z: nat, zn: Zone, ch: Choice, op: Op, es: seq<Event>)
    requires Underway(c, z, zn, op, es) && (zn.pc.UnlockOwner? || zn.pc.UnlockStore?)
    ensures var o := Exec(c, sh, z, zn, ch); Underway(c, z, o.zone, op, es + Visible(o.ev))
  {
    assert zn.pc.UnlockStore? ==> (es + [Release(z, zn.pc.code)])[..|es|] == es;
  }

  lemma {:induction false} StepUnderway(c: Config, sh: Shared, z: nat, zn: Zone, ch: Choice, op: Op, es: seq<Event>)
    requires Underway(c, z, zn, op, es) && !zn.pc.Idle? && !Exec(c, sh, z, zn, ch).ev.Fault?
    ensures var o := Exec(c, sh, z, zn, ch); Underway(c, z, o.zone, op, es + Visible(o.ev))
  {
    if Enqueuing(zn.pc) { EnqUnderway(c, sh, z, zn, ch, op, es); }
    else if Reading(zn.pc) || Removing(zn.pc) { DeqUnderway(c, sh, z, zn, ch, op, es); }
    else if zn.pc.UnlockOwner? || zn.pc.UnlockStore? { UnlockUnderway(c, sh, z, zn, ch, op, es); }
    else { LockUnderway(c, sh, z, zn, ch, op, es); }
  }

  // ----- Runs -----

  function After(c: Config, s: State, schedule: seq<Move>, k: nat): State
    requires k <= |schedule|
  {
    Run(c, s, schedule[..k]).0
  }

  /** Number of zones and length of the trace do not change. */
  lemma {:induction false} RunShape(c: Config, s: State, schedule: seq<Move>)
    ensures var (s', es) := Run(c, s, schedule); |es| == |schedule| && |s'.zones| == |s.zones|
    decreases |schedule|
  {
    if schedule != [] { RunShape(c, s, schedule[..|schedule| - 1]); }
  }

  lemma {:induction false} RunPrefix(c: Config, s: State, schedule: seq<Move>, k: nat)
    requires k <= |schedule|
    ensures |Run(c, s, schedule).1| == |schedule| && Run(c, s, schedule[..k]).1 == Run(c, s, schedule).1[..k]
    decreases |schedule|
  {
    RunShape(c, s, schedule);
    if k == |schedule| {
      assert schedule[..k] == schedule;
    } else {
      var before := schedule[..|schedule| - 1];
      RunPrefix(c, s, before, k);
      assert before[..k] == schedule[..k];
      assert Run(c, s, schedule).1[..|before|] == Run(c, s, before).1;
    }
  }

  /** Move k leads from one state of the run to the next, with event k. */
  lemma {:induction false} MoveAt(c: Config, s: State, schedule: seq<Move>, k: nat)
    requires k < |schedule|
    ensures |Run(c, s, schedule).1| == |schedule|
    ensures Step(c, After(c, s, schedule, k), schedule[k]) == (After(c, s, schedule, k + 1), Run(c, s, schedule).1[k])
  {
    RunPrefix(c, s, schedule, k);
    RunPrefix(c, s, schedule, k + 1);
    var next := schedule[..k + 1];
    assert next[..k] == schedule[..k] && next[k] == schedule[k];
    RunShape(c, s, schedule[..k]);
    assert Run(c, s, next).1[k] == Run(c, s, schedule).1[..k + 1][k];
  }

  /** No access ever leaves the region, whatever the other queue wrote. */
  lemma {:induction false} NoFault(c: Config, s: State, before: seq<Move>, z: nat, ch: Choice)
    requires Initial(c, s) && z < |Run(c, s, before).0.zones|
    ensures var s1 := Run(c, s, before).0; !Exec(c, s1.sh, z, s1.zones[z], ch).ev.Fault?
  {
    var s1 := Run(c, s, before).0;
    var sh, zn, a := Counterpart(c, s, before, z);
    InRegion(c, s1.sh, z, s1.zones[z], ch, sh, zn, a);
  }

  lemma {:induction false} InRegion(c: Config, sh: Shared, z: nat, zn: Zone, ch: Choice, sh': Shared, zn': Zone,
                                    a: Spec)
    requires SameShared(sh, sh') && SameZone(zn, zn') && SharedOk(c, sh', a) && ZoneOk(c, sh', z, zn', a)
    ensures !Exec(c, sh, z, zn, ch).ev.Fault?
  {
    SlotFits(c, sh.header);
    SlotFits(c, sh.tail);
  }

  /** Every event is silent or tells the zone that moved. */
  lemma {:induction false} EventTellsZone(c: Config, s: State, m: Move)
    ensures var ev := Step(c, s, m).1; ev == Silent || (m.Move? && ev.zone == m.zone)
  {
  }

  /** What move k does to zone z, and what is seen of it. */
  lemma {:induction false} ZoneAt(c: Config, s: State, schedule: seq<Move>, k: nat, z: nat)
    requires k < |schedule|
    requires z < |s.zones| || z < |After(c, s, schedule, k).zones| || z < |After(c, s, schedule, k + 1).zones|
    ensures z < |s.zones| == |After(c, s, schedule, k).zones| == |After(c, s, schedule, k + 1).zones|
    ensures |Run(c, s, schedule).1| == |schedule|
    ensures var mid, ev := After(c, s, schedule, k), Run(c, s, schedule).1[k];
            var zn' := After(c, s, schedule, k + 1).zones[z];
            if By(schedule[k], z)
            then var o := Exec(c, mid.sh, z, mid.zones[z], schedule[k].choice);
                 zn' == o.zone && ev == o.ev && (ev == Silent || ev.zone == z)
            else zn' == mid.zones[z] && (ev == Silent || ev.zone != z)
  {
    MoveAt(c, s, schedule, k);
    RunShape(c, s, schedule[..k]);
    RunShape(c, s, schedule[..k + 1]);
    EventTellsZone(c, After(c, s, schedule, k), schedule[k]);
  }

  /** Move i is the call of `op` by zone z: the zone is idle, and the caller chooses. */
  predicate Calls(c: Config, s: State, schedule: seq<Move>, i: nat, z: nat, op: Op) {
    && i < |schedule| && schedule[i].Move? && schedule[i].zone == z && schedule[i].choice.op == op
    && z < |After(c, s, schedule, i).zones| && After(c, s, schedule, i).zones[z].pc.Idle?
  }

  /** Zone z is in an operation from after move i up to before move j. */
  ghost predicate Busy(c: Config, s: State, schedule: seq<Move>, i: nat, j: nat, z: nat) {
    && j <= |schedule|
    && forall k :: i < k <= j ==>
         z < |After(c, s, schedule, k).zones| && !After(c, s, schedule, k).zones[z].pc.Idle?
  }

  /** What zone z did in moves i to j. */
  function Doings(c: Config, s: State, schedule: seq<Move>, i: nat, j: nat, z: nat): seq<Event>
    requires i <= j < |schedule|
  {
    RunShape(c, s, schedule);
    OfZone(Run(c, s, schedule).1[i..j + 1], z)
  }

  lemma {:induction false} DoingsStart(c: Config, s: State, schedule: seq<Move>, i: nat, z: nat)
    requires i < |schedule|
    ensures |Run(c, s, schedule).1| == |schedule|
    ensures var ev := Run(c, s, schedule).1[i];
            Doings(c, s, schedule, i, i, z) == if ev != Silent && ev.zone == z then [ev] else []
  {
    RunShape(c, s, schedule);
    var es := Run(c, s, schedule).1;
    assert es[i..i + 1] == [es[i]];
    assert OfZone([], z) == [];
    assert [es[i]][..0] == [];
  }

  lemma {:induction false} DoingsMore(c: Config, s: State, schedule: seq<Move>, i: nat, j: nat, z: nat)
    requires i < j < |schedule|
    ensures |Run(c, s, schedule).1| == |schedule|
    ensures var ev := Run(c, s, schedule).1[j];
            Doings(c, s, schedule, i, j, z)
            == Doings(c, s, schedule, i, j - 1, z) + if ev != Silent && ev.zone == z then [ev] else []
  {
    RunShape(c, s, schedule);
    var es := Run(c, s, schedule).1;
    assert es[i..j + 1][..j - i] == es[i..j];
  }

  /** From a call that is not refused up to its return. */
  lemma {:induction false} CallUnderway(c: Config, s: State, schedule: seq<Move>, i: nat, j: nat, z: nat, op: Op)
    requires Initial(c, s) && Calls(c, s, schedule, i, z, op) && !Refused(c, op)
    requires i <= j < |schedule| && Busy(c, s, schedule, i, j, z)
    ensures z < |After(c, s, schedule, j + 1).zones|
    ensures Underway(c, z, After(c, s, schedule, j + 1).zones[z], op, Doings(c, s, schedule, i, j, z))
    decreases j
  {
    ZoneAt(c, s, schedule, j, z);
    if i == j {
      DoingsStart(c, s, schedule, i, z);
    } else {
      CallUnderway(c, s, schedule, i, j - 1, z, op);
      DoingsMore(c, s, schedule, i, j, z);
      if By(schedule[j], z) {
        var mid, es := After(c, s, schedule, j), Doings(c, s, schedule, i, j - 1, z);
        NoFault(c, s, schedule[..j], z, schedule[j].choice);
        StepUnderway(c, mid.sh, z, mid.zones[z], schedule[j].choice, op, es);
      }
    }
  }

  /** Zone z called `op` at move i and returned from it with move j. */
  ghost predicate Completes(c: Config, s: State, schedule: seq<Move>, i: nat, j: nat, z: nat, op: Op) {
    && Calls(c, s, schedule, i, z, op) && i <= j < |schedule| && Busy(c, s, schedule, i, j, z)
    && z < |After(c, s, schedule, j + 1).zones| && After(c, s, schedule, j + 1).zones[z].pc.Idle?
  }

  /** In every run, whatever the other queue writes: a call with bad arguments returns ERROR
      at once and does nothing, and every other call that returns has taken the lock, had
      exactly the one effect it promises, and released the lock with the code it returns. */
  lemma {:induction false} CallsKeepPromises(c: Config, s: State, schedule: seq<Move>, i: nat, j: nat, z: nat, op: Op)
    requires Initial(c, s) && Completes(c, s, schedule, i, j, z, op)
    ensures var ret, es := After(c, s, schedule, j + 1).zones[z].ret, Doings(c, s, schedule, i, j, z);
            if Refused(c, op) then i == j && es == [] && ret == ERROR else Returned(c, z, op, es, ret)
  {
    if Refused(c, op) {
      MoveAt(c, s, schedule, i);
      DoingsStart(c, s, schedule, i, z);
    } else {
      CallUnderway(c, s, schedule, i, j, z, op);
    }
  }

  // ----- Every effect has been asked for -----

  /** A zone that is in an operation has called it. */
  lemma {:induction false} CallOf(c: Config, s: State, schedule: seq<Move>, k: nat, z: nat) returns (i: nat, op: Op)
    requires Initial(c, s) && k <= |schedule|
    requires z < |After(c, s, schedule, k).zones| && !After(c, s, schedule, k).zones[z].pc.Idle?
    ensures i < k && Calls(c, s, schedule, i, z, op) && !Refused(c, op) && Busy(c, s, schedule, i, k, z)
    decreases k
  {
    assert schedule[..0] == [];
    ZoneAt(c, s, schedule, k - 1, z);
    if After(c, s, schedule, k - 1).zones[z].pc.Idle? {
      i, op := k - 1, schedule[k - 1].choice.op;
    } else {
      i, op := CallOf(c, s, schedule, k - 1, z);
    }
  }

  /** Whatever is sent, delivered, peeked, found full or found empty in a run is what the
      operation promises that the zone was called with, and the first thing it does after
      taking the lock: so a zone running Enqueue(d) sends d and nothing else. */
  lemma {:induction false} EffectIsAsked(c: Config, s: State, schedule: seq<Move>, e: nat)
    returns (i: nat, op: Op, code: int)
    requires Initial(c, s) && e < |Run(c, s, schedule).1| && Effect(Run(c, s, schedule).1[e])
    ensures var ev := Run(c, s, schedule).1[e];
            && i < e < |schedule| && Calls(c, s, schedule, i, ev.zone, op) && Busy(c, s, schedule, i, e, ev.zone)
            && Doings(c, s, schedule, i, e - 1, ev.zone) == [Acquire(ev.zone)]
            && Fulfils(c, ev.zone, op, ev, code)
  {
    MoveAtEvent(c, s, schedule, e);
    var ev := Run(c, s, schedule).1[e];
    var mid := After(c, s, schedule, e);
    var zn := mid.zones[ev.zone];
    i, op := CallOf(c, s, schedule, e, ev.zone);
    CallUnderway(c, s, schedule, i, e - 1, ev.zone, op);
    code := EffectFulfils(c, mid.sh, ev.zone, zn, schedule[e].choice, op, Doings(c, s, schedule, i, e - 1, ev.zone));
  }

  lemma {:induction false} MoveAtEvent(c: Config, s: State, schedule: seq<Move>, e: nat)
    requires e < |Run(c, s, schedule).1| && Effect(Run(c, s, schedule).1[e])
    ensures e < |schedule| && schedule[e].Move?
    ensures var mid, ev, m := After(c, s, schedule, e), Run(c, s, schedule).1[e], schedule[e];
            && ev.zone == m.zone < |mid.zones| && !mid.zones[m.zone].pc.Idle?
            && Exec(c, mid.sh, m.zone, mid.zones[m.zone], m.choice).ev == ev
  {
    RunShape(c, s, schedule);
    MoveAt(c, s, schedule, e);
    EventTellsZone(c, After(c, s, schedule, e), schedule[e]);
  }

  lemma {:induction false} EffectFulfils(c: Config, sh: Shared, z: nat, zn: Zone, ch: Choice, op: Op, es: seq<Event>)
    returns (code: int)
    requires Underway(c, z, zn, op, es) && !zn.pc.Idle? && Effect(Exec(c, sh, z, zn, ch).ev)
    ensures es == [Acquire(z)] && Fulfils(c, z, op, Exec(c, sh, z, zn, ch).ev, code)
  {
    code := CodeOf(Exec(c, sh, z, zn, ch).ev);
  }

  // ----- When an operation fails -----

  /** The code an operation promises when it finds so many messages waiting. */
  function CodeFor(c: Config, op: Op, waiting: nat): int {
    match op
    case Enqueue(_) => if waiting + 1 == c.capacity then AGAIN else OK
    case Dequeue(_) => if waiting == 0 then AGAIN else OK
    case Peek(_) => if waiting == 0 then ERROR else OK
    case AllocSlot => if waiting + 1 == c.capacity then ERROR else OK
    case ReleaseSlot => if waiting == 0 then ERROR else OK
    case TrySection => OK
  }

  /** The effect of an operation, when it happens, goes with the messages waiting then. */
  lemma {:induction false} EffectCode(c: Config, s: State, schedule: seq<Move>, e: nat, z: nat, op: Op, code: int)
    requires Initial(c, s) && Harmless(c, s, schedule)
    requires e < |Run(c, s, schedule).1| && Fulfils(c, z, op, Run(c, s, schedule).1[e], code)
    ensures code == CodeFor(c, op, |ApplyAll(Start, Run(c, s, schedule).1[..e]).queue|)
  {
    RunRefines(c, s, schedule);
    AcceptsPrefix(c.capacity, c.blockSize, Start, Run(c, s, schedule).1, e);
  }

  /** Where in the trace the effect of a call is. */
  lemma {:induction false} EffectPlace(es: seq<Event>, z: nat, k: nat) returns (e: nat)
    requires k < |OfZone(es, z)|
    ensures e < |es| && es[e] == OfZone(es, z)[k] && |OfZone(es[..e], z)| == k
    decreases |es|
  {
    var n := |es| - 1;
    if k < |OfZone(es[..n], z)| {
      e := EffectPlace(es[..n], z, k);
      assert es[..n][..e] == es[..e];
    } else {
      e := n;
    }
  }

  /** In every run beside the other queue's writes, a call that took the lock returned the
      code that goes with the number of messages waiting at the moment of its effect. */
  lemma {:induction false} CodesTellTheQueue(c: Config, s: State, schedule: seq<Move>, i: nat, j: nat, z: nat, op: Op)
    returns (e: nat)
    requires Initial(c, s) && Harmless(c, s, schedule) && Completes(c, s, schedule, i, j, z, op)
    requires !Refused(c, op) && !op.TrySection?
    ensures |Run(c, s, schedule).1| == |schedule| && i <= e <= j
    ensures var es, ret := Run(c, s, schedule).1, After(c, s, schedule, j + 1).zones[z].ret;
            Fulfils(c, z, op, es[e], ret) && ret == CodeFor(c, op, |ApplyAll(Start, es[..e]).queue|)
  {
    CallsKeepPromises(c, s, schedule, i, j, z, op);
    var ret := After(c, s, schedule, j + 1).zones[z].ret;
    SecondDoing(c, z, op, Doings(c, s, schedule, i, j, z), ret);
    e := DoingPlace(c, s, schedule, i, j, z, 1);
    EffectCode(c, s, schedule, e, z, op, ret);
  }

  lemma {:induction false} DoingPlace(c: Config, s: State, schedule: seq<Move>, i: nat, j: nat, z: nat, k: nat)
    returns (e: nat)
    requires i <= j < |schedule| && k < |Doings(c, s, schedule, i, j, z)|
    ensures |Run(c, s, schedule).1| == |schedule| && i <= e <= j
    ensures Run(c, s, schedule).1[e] == Doings(c, s, schedule, i, j, z)[k]
  {
    RunShape(c, s, schedule);
    var d := EffectPlace(Run(c, s, schedule).1[i..j + 1], z, k);
    e := i + d;
  }

  lemma {:induction false} SecondDoing(c: Config, z: nat, op: Op, es: seq<Event>, ret: int)
    requires Returned(c, z, op, es, ret) && !op.TrySection?
    ensures |es| == 3 && es[0] == Acquire(z) && Fulfils(c, z, op, es[1], ret) && es[2] == Release(z, ret)
  {
    assert es[..2][1] == es[1];
  }

  lemma {:induction false} SeenOfZone(es: seq<Event>, z: nat, k: nat)
    requires k < |es| && es[k] != Silent && es[k].zone == z
    ensures es[k] in OfZone(es, z)
    decreases |es|
  {
    if k < |es| - 1 { SeenOfZone(es[..|es| - 1], z, k); }
  }

  /** An effect of zone z between call and return is the effect of that call: it is what
      the operation promises with the code returned. */
  lemma {:induction false} EffectOfCall(c: Config, s: State, schedule: seq<Move>, i: nat, j: nat, z: nat, op: Op,
                                        e: nat)
    requires Initial(c, s) && Completes(c, s, schedule, i, j, z, op)
    requires i <= e <= j && e < |Run(c, s, schedule).1|
    requires Effect(Run(c, s, schedule).1[e]) && Run(c, s, schedule).1[e].zone == z
    ensures Fulfils(c, z, op, Run(c, s, schedule).1[e], After(c, s, schedule, j + 1).zones[z].ret)
  {
    CallsKeepPromises(c, s, schedule, i, j, z, op);
    RunShape(c, s, schedule);
    var es, own := Run(c, s, schedule).1, Doings(c, s, schedule, i, j, z);
    SeenOfZone(es[i..j + 1], z, e - i);
    assert es[i..j + 1][e - i] == es[e];
    OnlyEffect(c, z, op, own, After(c, s, schedule, j + 1).zones[z].ret, es[e]);
  }

  lemma {:induction false} OnlyEffect(c: Config, z: nat, op: Op, es: seq<Event>, ret: int, ev: Event)
    requires Returned(c, z, op, es, ret) && ev in es && Effect(ev)
    ensures Fulfils(c, z, op, ev, ret)
  {
    assert es == es[..|es| - 1] + [es[|es| - 1]];
  }

  // ----- The lock's own records -----

  /** How often the lock was taken. */
  function Acquisitions(es: seq<Event>): nat {
    if es == [] then 0 else Acquisitions(es[..|es| - 1]) + if es[|es| - 1].Acquire? then 1 else 0
  }

  /** The holder has not yet counted its acquisition. */
  predicate Uncounted(pc: Pc) {
    pc.SetOwner? || pc.LockCountLoad? || pc.LockCountStore?
  }

  /** The holder has recorded itself and not yet cleared the record. */
  predicate Recorded(pc: Pc) {
    InCritical(pc) && !pc.SetOwner? && !pc.UnlockStore?
  }

  /** The records as zone z sees them. */
  predicate ZoneRecords(sh: Shared, z: nat, pc: Pc, first: int, n: nat) {
    && (Recorded(pc) ==> sh.owner == z)
    && (pc.LockCountStore? ==> pc.v == sh.lockCount)
    && (Uncounted(pc) ==> (sh.lockCount + 1 - first - n) % U32 == 0)
  }

  /** The owner field names the zone inside, and the lock count has gone from `first` through
      n acquisitions, but for one not yet counted. */
  ghost predicate LockRecords(s: State, first: int, n: nat) {
    && (forall z :: 0 <= z < |s.zones| ==> ZoneRecords(s.sh, z, s.zones[z].pc, first, n))
    && ((forall z :: 0 <= z < |s.zones| ==> !Uncounted(s.zones[z].pc)) ==> (s.sh.lockCount - first - n) % U32 == 0)
  }

  /** A step of the zone inside. */
  lemma {:induction false} InsideStep(c: Config, sh: Shared, z: nat, zn: Zone, ch: Choice, first: int, n: nat)
    requires InCritical(zn.pc) && ZoneRecords(sh, z, zn.pc, first, n)
    requires !Uncounted(zn.pc) ==> (sh.lockCount - first - n) % U32 == 0
    ensures var o := Exec(c, sh, z, zn, ch);
            && !o.ev.Acquire? && ZoneRecords(o.sh, z, o.zone.pc, first, n)
            && (!Uncounted(o.zone.pc) ==> (o.sh.lockCount - first - n) % U32 == 0)
  {
    if zn.pc.LockCountStore? {
      CountsOn(sh.lockCount, first + n);
    } else {
      assert Exec(c, sh, z, zn, ch).sh.lockCount == sh.lockCount;
    }
  }

  lemma {:induction false} CountsOn(v: int, k: int)
    requires (v + 1 - k) % U32 == 0
    ensures ((v + 1) % U32 - k) % U32 == 0
  {
    assert v + 1 - k == ((v + 1) % U32 - k) + U32 * ((v + 1) / U32);
  }

  /** A step of a zone that is not inside; it may enter. */
  lemma {:induction false} OutsideStep(c: Config, sh: Shared, z: nat, zn: Zone, ch: Choice)
    requires !InCritical(zn.pc)
    ensures var o := Exec(c, sh, z, zn, ch);
            && o.sh.lockCount == sh.lockCount && o.sh.owner == sh.owner
            && (if o.ev.Acquire? then o.zone.pc.SetOwner? else !InCritical(o.zone.pc))
  {
  }

  lemma {:induction false} InsideRecords(c: Config, s: State, z: nat, ch: Choice, first: int, n: nat)
    requires z < |s.zones| && LockRecords(s, first, n) && InCritical(s.zones[z].pc)
    requires forall w :: 0 <= w < |s.zones| && w != z ==> !InCritical(s.zones[w].pc)
    ensures var o := Exec(c, s.sh, z, s.zones[z], ch);
            !o.ev.Acquire? && LockRecords(State(o.sh, s.zones[z := o.zone]), first, n)
  {
    assert ZoneRecords(s.sh, z, s.zones[z].pc, first, n);
    InsideStep(c, s.sh, z, s.zones[z], ch, first, n);
    var o := Exec(c, s.sh, z, s.zones[z], ch);
    var zones := s.zones[z := o.zone];
    forall w | 0 <= w < |zones| ensures ZoneRecords(o.sh, w, zones[w].pc, first, n) {
    }
    assert zones[z] == o.zone;
  }

  lemma {:induction false} OutsideRecords(c: Config, s: State, z: nat, ch: Choice, first: int, n: nat)
    requires z < |s.zones| && LockRecords(s, first, n) && !InCritical(s.zones[z].pc)
    requires Exec(c, s.sh, z, s.zones[z], ch).ev.Acquire? ==>
               forall w :: 0 <= w < |s.zones| ==> !InCritical(s.zones[w].pc)
    ensures var o := Exec(c, s.sh, z, s.zones[z], ch);
            LockRecords(State(o.sh, s.zones[z := o.zone]), first, n + if o.ev.Acquire? then 1 else 0)
  {
    OutsideStep(c, s.sh, z, s.zones[z], ch);
    var o := Exec(c, s.sh, z, s.zones[z], ch);
    var zones, k := s.zones[z := o.zone], n + if o.ev.Acquire? then 1 else 0;
    forall w | 0 <= w < |zones| ensures ZoneRecords(o.sh, w, zones[w].pc, first, k) {
      if w != z { assert ZoneRecords(s.sh, w, s.zones[w].pc, first, n); }
    }
    if !o.ev.Acquire? {
      assert forall w :: 0 <= w < |zones| ==> (Uncounted(zones[w].pc) <==> Uncounted(s.zones[w].pc));
    } else {
      assert Uncounted(zones[z].pc);
    }
  }

  lemma {:induction false} MoveRecords(c: Config, s: State, m: Move, first: int, n: nat)
    requires LockRecords(s, first, n) && OneInside(s) && OneInside(Step(c, s, m).0)
    ensures LockRecords(Step(c, s, m).0, first, n + if Step(c, s, m).1.Acquire? then 1 else 0)
  {
    if m.Move? && m.zone < |s.zones| {
      var z, s' := m.zone, Step(c, s, m).0;
      if InCritical(s.zones[z].pc) {
        assert Inside(s, z);
        assert forall w: nat :: w < |s.zones| && InCritical(s.zones[w].pc) ==> Inside(s, w);
        InsideRecords(c, s, z, m.choice, first, n);
      } else {
        OutsideStep(c, s.sh, z, s.zones[z], m.choice);
        assert Step(c, s, m).1.Acquire? ==> Inside(s', z);
        assert forall w: nat :: w < |s.zones| && InCritical(s.zones[w].pc) ==> Inside(s', w);
        OutsideRecords(c, s, z, m.choice, first, n);
      }
    }
  }

  /** In every run, whatever the other queue writes: the owner field names the zone inside
      from when it has entered itself until it clears the field, and the lock count has
      grown by the number of acquisitions, modulo 2^32, but for one not yet counted. */
  lemma {:induction false} LockIsRecorded(c: Config, s: State, schedule: seq<Move>)
    requires Initial(c, s)
    ensures LockRecords(Run(c, s, schedule).0, s.sh.lockCount, Acquisitions(Run(c, s, schedule).1))
    decreases |schedule|
  {
    if schedule == [] {
      NoRecords(c, s);
    } else {
      var before, m := schedule[..|schedule| - 1], schedule[|schedule| - 1];
      LockIsRecorded(c, s, before);
      RunStep(c, s, schedule);
      NextRecords(c, Run(c, s, before), m, Run(c, s, schedule), s.sh.lockCount);
    }
  }

  lemma {:induction false} NoRecords(c: Config, s: State)
    requires Initial(c, s)
    ensures LockRecords(s, s.sh.lockCount, 0)
  {
  }

  lemma {:induction false} NextRecords(c: Config, r: (State, seq<Event>), m: Move, r': (State, seq<Event>), first: int)
    requires OneInside(r.0) && OneInside(r'.0) && LockRecords(r.0, first, Acquisitions(r.1))
    requires r' == (Step(c, r.0, m).0, r.1 + [Step(c, r.0, m).1])
    ensures LockRecords(r'.0, first, Acquisitions(r'.1))
  {
    AcquisitionsSnoc(r.1, Step(c, r.0, m).1);
    MoveRecords(c, r.0, m, first, Acquisitions(r.1));
  }

  lemma {:induction false} RunStep(c: Config, s: State, schedule: seq<Move>)
    requires Initial(c, s) && schedule != []
    ensures var before, m := schedule[..|schedule| - 1], schedule[|schedule| - 1];
            var (mid, es) := Run(c, s, before);
            && Run(c, s, schedule) == (Step(c, mid, m).0, es + [Step(c, mid, m).1])
            && OneInside(mid) && OneInside(Step(c, mid, m).0)
  {
    MutualExclusion(c, s, schedule[..|schedule| - 1]);
    MutualExclusion(c, s, schedule);
  }

  lemma {:induction false} AcquisitionsSnoc(es: seq<Event>, ev: Event)
    ensures Acquisitions(es + [ev]) == Acquisitions(es) + if ev.Acquire? then 1 else 0
  {
    assert (es + [ev])[..|es|] == es;
  }
}
