/** The critical section of the HyperAMP queue: effects come in lock order, and whoever
    holds the lock lets go of it after a bounded number of its own steps. */
module ShmProgress {

  import opened FifoSpec
  import opened Ring
  import opened ShmProtocol
  import opened ShmRefinement

  /** In every run each operation takes effect while its zone holds the lock: nobody does
      anything between that acquisition and the effect, and the next thing to happen
      after the effect is the zone's release, with the code of the effect. */
  lemma {:induction false} RunIsSerialised(c: Config, s: State, schedule: seq<Move>, i: nat)
    requires Initial(c, s) && Harmless(c, s, schedule)
    requires i < |Run(c, s, schedule).1| && Effect(Run(c, s, schedule).1[i])
    ensures var es := Run(c, s, schedule).1;
            && (exists j: nat :: HoldsSince(es[..i], es[i].zone, j))
            && (forall j :: i < j < |es| && es[j] != Silent && (forall k :: i < k < j ==> es[k] == Silent) ==>
                  es[j] == Release(es[i].zone, CodeOf(es[i])))
  {
    RunRefines(c, s, schedule);
    var es := Run(c, s, schedule).1;
    EffectsFollowAcquisition(c.capacity, c.blockSize, es, i);
    forall j | i < j < |es| && es[j] != Silent && (forall k :: i < k < j ==> es[k] == Silent)
      ensures es[j] == Release(es[i].zone, CodeOf(es[i]))
    {
      ReleaseFollowsEffect(c.capacity, c.blockSize, es, i, j);
    }
  }

  /** Bytes the operation copies at most. */
  function CopyLen(c: Config, op: Op): nat {
    if op.Enqueue? then |op.data| else Min(MaxLenOf(op), c.blockSize)
  }

  /** Steps that a zone inside still has to take before the lock is free. */
  function Remaining(c: Config, zn: Zone): int {
    var n := CopyLen(c, zn.op);
    match zn.pc
    case UnlockStore(_) => 1
    case UnlockOwner(_) => 2
    case EnqCountStore(_) => 3
    case DeqCountStore(_) => 3
    case EnqCountLoad => 4
    case DeqCountLoad => 4
    case EnqPublish(_) => 5
    case DeqPublish(_, _) => 5
    case DeqNext(_) => 6
    case EnqCopy(_, _, i) => n - i + 6
    case DeqCopy(_, out) => n - |out| + 7
    case EnqAddr(_) => n + 7
    case DeqAddr => n + 8
    case EnqTail(_) => n + 8
    case DeqHeader(_) => n + 9
    case EnqHeader => n + 9
    case DeqTail => n + 10
    case LockCountStore(_) => n + 11
    case LockCountLoad => n + 12
    case SetOwner => n + 13
    case _ => 0
  }

  /** A turn of a copy loop, or its end. */
  lemma {:induction false} CopyShrinks(c: Config, sh: Shared, z: nat, zn: Zone, ch: Choice, a: Spec)
    requires SharedOk(c, sh, a) && ZoneOk(c, sh, z, zn, a) && Copying(zn.pc)
    ensures Remaining(c, zn) >= 1
    ensures var zn' := Exec(c, sh, z, zn, ch).zone; InCritical(zn'.pc) ==> Remaining(c, zn') < Remaining(c, zn)
  {
    if zn.pc.EnqCopy? { SlotFits(c, sh.header); }
    if zn.pc.DeqCopy? { SlotFits(c, sh.tail); }
  }

  /** A step of a zone inside brings it closer to the release. */
  lemma {:induction false} StepShrinks(c: Config, sh: Shared, z: nat, zn: Zone, ch: Choice, a: Spec)
    requires SharedOk(c, sh, a) && ZoneOk(c, sh, z, zn, a) && InCritical(zn.pc)
    ensures Remaining(c, zn) >= 1
    ensures var zn' := Exec(c, sh, z, zn, ch).zone; InCritical(zn'.pc) ==> Remaining(c, zn') < Remaining(c, zn)
  {
    if Copying(zn.pc) { CopyShrinks(c, sh, z, zn, ch, a); }
  }

  predicate By(m: Move, z: nat) {
    m.Move? && m.zone == z
  }

  /** How often zone z moves in a schedule. */
  function Moves(schedule: seq<Move>, z: nat): nat {
    if schedule == [] then 0
    else Moves(schedule[..|schedule| - 1], z) + if By(schedule[|schedule| - 1], z) then 1 else 0
  }

  lemma {:induction false} RunSnoc(c: Config, s: State, schedule: seq<Move>, m: Move)
    ensures Run(c, s, schedule + [m]).0 == Step(c, Run(c, s, schedule).0, m).0
  {
    assert (schedule + [m])[..|schedule|] == schedule;
  }

  /** Zone z is inside after the schedule and all through the continuation. */
  ghost predicate StaysInside(c: Config, s: State, schedule: seq<Move>, more: seq<Move>, z: nat) {
    forall n :: 0 <= n <= |more| ==> Inside(Run(c, s, schedule + more[..n]).0, z)
  }

  lemma {:induction false} InsidePrefix(c: Config, s: State, schedule: seq<Move>, more: seq<Move>, k: nat, z: nat)
    requires StaysInside(c, s, schedule, more, z) && k <= |more|
    ensures StaysInside(c, s, schedule, more[..k], z)
    ensures Inside(Run(c, s, schedule + more[..k]).0, z) && Inside(Run(c, s, schedule + more).0, z)
  {
    forall n | 0 <= n <= k ensures Inside(Run(c, s, schedule + more[..k][..n]).0, z) {
      assert more[..k][..n] == more[..n];
    }
    assert more[..|more|] == more;
  }

  /** A zone that has been inside all through the continuation `more` has used up one of
      its remaining steps with every move. */
  lemma {:induction false} InsideUsesSteps(c: Config, s: State, schedule: seq<Move>, more: seq<Move>, z: nat)
    requires Initial(c, s)
    requires StaysInside(c, s, schedule, more, z)
    ensures var zn, zn' := Run(c, s, schedule).0.zones, Run(c, s, schedule + more).0.zones;
            z < |zn| && z < |zn'| && Remaining(c, zn'[z]) + Moves(more, z) <= Remaining(c, zn[z])
    decreases |more|
  {
    if more == [] {
      assert schedule + more[..0] == schedule && schedule + more == schedule;
    } else {
      var k := |more| - 1;
      InsidePrefix(c, s, schedule, more, k, z);
      InsideUsesSteps(c, s, schedule, more[..k], z);
      LastOf(schedule, more, k);
      LastStep(c, s, schedule + more[..k], more[k], schedule + more, z);
    }
  }

  lemma {:induction false} LastOf(schedule: seq<Move>, more: seq<Move>, k: nat)
    requires k + 1 == |more|
    ensures schedule + more == (schedule + more[..k]) + [more[k]]
  {
  }

  lemma {:induction false} LastStep(c: Config, s: State, before: seq<Move>, m: Move, after: seq<Move>, z: nat)
    requires Initial(c, s) && Inside(Run(c, s, before).0, z) && after == before + [m]
    ensures var s1, s2 := Run(c, s, before).0, Run(c, s, after).0;
            Inside(s2, z) ==>
              Remaining(c, s2.zones[z]) + (if By(m, z) then 1 else 0) <= Remaining(c, s1.zones[z])
  {
    RunSnoc(c, s, before, m);
    if By(m, z) { InsideShrinks(c, s, before, m.choice, z); }
  }

  /** A zone of any reachable state has, up to the bytes it has read, a counterpart of which
      the invariants of undisturbed runs hold. */
  lemma {:induction false} Counterpart(c: Config, s: State, before: seq<Move>, z: nat)
    returns (sh: Shared, zn: Zone, a: Spec)
    requires Initial(c, s) && z < |Run(c, s, before).0.zones|
    ensures var s1 := Run(c, s, before).0; SameShared(s1.sh, sh) && SameZone(s1.zones[z], zn)
    ensures SharedOk(c, sh, a) && ZoneOk(c, sh, z, zn, a)
  {
    var alone := OnlyMoves(before);
    var (t, es) := Run(c, s, alone);
    AloneIsHarmless(c, s, alone);
    RunRefines(c, s, alone);
    RunAlike(c, s, before);
    sh, zn, a := t.sh, t.zones[z], ApplyAll(Start, es);
  }

  /** What StepShrinks says does not depend on those bytes. */
  lemma {:induction false} ShrinksAlike(c: Config, sh: Shared, zn: Zone, sh': Shared, zn': Zone, z: nat, ch: Choice,
                                        a: Spec)
    requires SameShared(sh, sh') && SameZone(zn, zn') && InCritical(zn.pc)
    requires SharedOk(c, sh', a) && ZoneOk(c, sh', z, zn', a)
    ensures var next := Exec(c, sh, z, zn, ch).zone;
            Remaining(c, zn) >= 1 && (InCritical(next.pc) ==> Remaining(c, next) < Remaining(c, zn))
  {
    SameRemaining(c, zn, zn');
    StepShrinks(c, sh', z, zn', ch, a);
    ExecAlike(c, sh, sh', z, zn, zn', ch);
    SameRemaining(c, Exec(c, sh, z, zn, ch).zone, Exec(c, sh', z, zn', ch).zone);
  }

  lemma {:induction false} SameRemaining(c: Config, zn: Zone, zn': Zone)
    requires SameZone(zn, zn')
    ensures Remaining(c, zn) == Remaining(c, zn') && (InCritical(zn.pc) <==> InCritical(zn'.pc))
  {
  }

  /** In any reachable state, whatever the other queue wrote, a step of a zone inside
      brings it closer to the release. */
  lemma {:induction false} InsideShrinks(c: Config, s: State, before: seq<Move>, ch: Choice, z: nat)
    requires Initial(c, s) && Inside(Run(c, s, before).0, z)
    ensures var s1 := Run(c, s, before).0;
            var zn' := Exec(c, s1.sh, z, s1.zones[z], ch).zone;
            Remaining(c, s1.zones[z]) >= 1 && (InCritical(zn'.pc) ==> Remaining(c, zn') < Remaining(c, s1.zones[z]))
  {
    var s1 := Run(c, s, before).0;
    var sh, zn, a := Counterpart(c, s, before, z);
    ShrinksAlike(c, s1.sh, s1.zones[z], sh, zn, z, ch, a);
  }

  lemma {:induction false} RemainingBound(c: Config, zn: Zone)
    ensures Remaining(c, zn) <= CopyLen(c, zn.op) + 13
  {
  }

  /** Bounded critical section, whatever the interleaving: in a stretch of a run during
      which a zone never leaves, it makes fewer moves than it has steps remaining; so the
      lock is free again after at most the copied length plus 13 moves of its holder. */
  lemma {:induction false} HolderLetsGo(c: Config, s: State, schedule: seq<Move>, more: seq<Move>, z: nat)
    requires Initial(c, s)
    requires StaysInside(c, s, schedule, more, z)
    ensures var zn := Run(c, s, schedule).0.zones;
            z < |zn| && Moves(more, z) < Remaining(c, zn[z]) <= CopyLen(c, zn[z].op) + 13
  {
    InsideUsesSteps(c, s, schedule, more, z);
    InsidePrefix(c, s, schedule, more, 0, z);
    InsideShrinks(c, s, schedule + more, Choice(TrySection, true, true), z);
    RemainingBound(c, Run(c, s, schedule).0.zones[z]);
  }
}
