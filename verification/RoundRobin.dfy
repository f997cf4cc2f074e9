/** choose_dev_round_robin. The probe narrows the local copy of the active mask in place,
    so after one inactive slot every later probe of the same call fails too. */
module RoundRobin {

  import Arith
  import opened Bytes

  /** The engine's active mask as the set of slots whose bit is set. */
  type Mask = set<nat>

  /** The slot probed first: slot 0 on the first call, the next one in the ring after. */
  function FirstProbe(last: int, devNum: nat): (p: nat)
    requires devNum > 0 && -1 <= last < devNum
    ensures p < devNum
  {
    if last + 1 == devNum then 0 else last + 1
  }

  class Chooser {
    /** The static variable of the function. */
    var lastPos: int

    constructor ()
      ensures lastPos == -1
    {
      lastPos := -1;
    }

    /** A call succeeds exactly when the slot it probes first is active, and then takes
        that slot; a call that fails leaves the position where it was. */
    method Choose(active: Mask, devNum: nat) returns (r: int)
      requires -1 <= lastPos && (devNum > 0 ==> lastPos < devNum)
      modifies this
      ensures devNum == 0 ==> r == ERROR && lastPos == old(lastPos)
      ensures devNum > 0 ==>
                var p := FirstProbe(old(lastPos), devNum);
                && r == (if p in active then OK else ERROR)
                && lastPos == (if p in active then p else old(lastPos))
    {
      if devNum == 0 { return ERROR; }
      var mask, cnt, found := active, 0, false;
      if lastPos == -1 {
        while cnt < devNum
          invariant 0 <= cnt <= devNum && !found && lastPos == -1
          invariant cnt == 0 ==> mask == active
          invariant cnt > 0 ==> mask == {} && 0 !in active
        {
          assert cnt in mask ==> cnt in mask * {cnt};
          mask := mask * {cnt};
          if mask != {} {
            found, lastPos := true, cnt;
            break;
          }
          cnt := cnt + 1;
        }
      } else {
        ghost var start := lastPos;
        ghost var p := FirstProbe(start, devNum);
        while cnt < devNum
          invariant 0 <= cnt <= devNum && !found && 0 <= lastPos < devNum
          invariant lastPos == if start + cnt < devNum then start + cnt else start + cnt - devNum
          invariant cnt == 0 ==> mask == active
          invariant cnt > 0 ==> mask == {} && p !in active
        {
          lastPos := lastPos + 1;
          if devNum == lastPos { lastPos := 0; }
          assert lastPos in mask ==> lastPos in mask * {lastPos};
          mask := mask * {lastPos};
          if mask != {} {
            found := true;
            break;
          }
          cnt := cnt + 1;
        }
      }
      return if found then OK else ERROR;
    }
  }

  // ----- Sequences of calls -----

  /** The position after a call, by the contract of Choose. */
  function Next(last: int, active: Mask, devNum: nat): (p: int)
    requires devNum > 0 && -1 <= last < devNum
    ensures -1 <= p < devNum
  {
    var p := FirstProbe(last, devNum);
    if p in active then p else last
  }

  function After(last: int, active: Mask, devNum: nat, calls: nat): (p: int)
    requires devNum > 0 && -1 <= last < devNum
    ensures -1 <= p < devNum
  {
    if calls == 0 then last else Next(After(last, active, devNum, calls - 1), active, devNum)
  }

  /** Once the next slot is inactive, every later call fails, whatever else is active. */
  lemma {:induction false} StuckAtInactive(last: int, active: Mask, devNum: nat, calls: nat)
    requires devNum > 0 && -1 <= last < devNum && FirstProbe(last, devNum) !in active
    ensures After(last, active, devNum, calls) == last
  {
    if calls > 0 { StuckAtInactive(last, active, devNum, calls - 1); }
  }

  /** Exactly which calls succeed: the k-th succeeds if and only if the k slots from the
      first probe on are all active. */
  lemma {:induction false} CallSucceedsIff(last: int, active: Mask, devNum: nat, k: nat)
    requires devNum > 0 && -1 <= last < devNum
    ensures (forall j: nat {:trigger Slot(last, devNum, j)} :: j < k ==> Slot(last, devNum, j) in active)
            ==> After(last, active, devNum, k) == if k == 0 then last else Slot(last, devNum, k - 1)
    ensures (exists j: nat {:trigger Slot(last, devNum, j)} :: j < k && Slot(last, devNum, j) !in active)
            ==> FirstProbe(After(last, active, devNum, k), devNum) !in active
  {
    if k > 0 {
      CallSucceedsIff(last, active, devNum, k - 1);
      SlotStep(last, devNum, k - 1);
      if k > 1 { SlotStep(last, devNum, k - 2); }
    }
  }

  /** The slot that the j-th following call probes when all earlier ones succeed. */
  function Slot(last: int, devNum: nat, j: nat): nat
    requires devNum > 0 && -1 <= last < devNum
  {
    (last + 1 + j) % devNum
  }

  lemma {:induction false} SlotStep(last: int, devNum: nat, j: nat)
    requires devNum > 0 && -1 <= last < devNum
    ensures Slot(last, devNum, 0) == FirstProbe(last, devNum)
    ensures Slot(last, devNum, j) < devNum
    ensures FirstProbe(Slot(last, devNum, j), devNum) == Slot(last, devNum, j + 1)
  {
    var x := last + 1 + j;
    var q, r := x / devNum, x % devNum;
    assert x == q * devNum + r;
    if r + 1 == devNum {
      assert x + 1 == (q + 1) * devNum + 0;
      Arith.DivModUnique(x + 1, devNum, q + 1, 0);
    } else {
      Arith.DivModUnique(x + 1, devNum, q, r + 1);
    }
    if last + 1 == devNum {
      Arith.DivModUnique(last + 1, devNum, 1, 0);
    } else {
      Arith.DivModUnique(last + 1, devNum, 0, last + 1);
    }
  }

  /** With every slot active, any devNum calls in a row visit every slot exactly once. */
  lemma {:induction false} AllActiveVisitsEach(last: int, active: Mask, devNum: nat, s: nat)
    requires devNum > 0 && -1 <= last < devNum && s < devNum && forall i: nat :: i < devNum ==> i in active
    ensures exists j: nat {:trigger Slot(last, devNum, j)} ::
              j < devNum && Slot(last, devNum, j) == s && After(last, active, devNum, j + 1) == s
              && forall i: nat {:trigger Slot(last, devNum, i)} :: i < devNum && Slot(last, devNum, i) == s ==> i == j
  {
    var j: nat := if s > last then s - last - 1 else s - last - 1 + devNum;
    assert j < devNum;
    SlotUnique(last, devNum, j, s);
    forall i: nat | i < j + 1 ensures Slot(last, devNum, i) in active { SlotStep(last, devNum, i); }
    CallSucceedsIff(last, active, devNum, j + 1);
    forall i: nat | i < devNum && Slot(last, devNum, i) == s ensures i == j {
      SlotInjective(last, devNum, i, j);
    }
  }

  lemma {:induction false} SlotUnique(last: int, devNum: nat, j: nat, s: nat)
    requires devNum > 0 && -1 <= last < devNum && s < devNum && j < devNum
    requires j == if s > last then s - last - 1 else s - last - 1 + devNum
    ensures Slot(last, devNum, j) == s
  {
    if s > last {
      Arith.DivModUnique(last + 1 + j, devNum, 0, s);
    } else {
      Arith.DivModUnique(last + 1 + j, devNum, 1, s);
    }
  }

  lemma {:induction false} SlotInjective(last: int, devNum: nat, i: nat, j: nat)
    requires devNum > 0 && -1 <= last < devNum && i < devNum && j < devNum
    requires Slot(last, devNum, i) == Slot(last, devNum, j)
    ensures i == j
  {
    var x, y := last + 1 + i, last + 1 + j;
    assert x == (x / devNum) * devNum + x % devNum && y == (y / devNum) * devNum + y % devNum;
    var k := x / devNum - y / devNum;
    assert i - j == k * devNum;
    if k > 0 { Arith.AtLeastOnce(k, devNum); }
    if k < 0 { Arith.AtLeastOnce(-k, devNum); }
  }
}
