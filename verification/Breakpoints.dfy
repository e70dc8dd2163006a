// Hardware breakpoints of the AURIX debug target: seven trigger slots for the
// user, the eighth for single steps.
//
// Every access to the target may fail, as the bus decides.  A failed access
// changes nothing; a trigger takes two of them.
module Breakpoints {

  const USER_SLOTS: nat := 7
  const STEP_SLOT: nat := 7
  const PC_HALT: nat := 0x103A

  // IGNORED: the breakpoint does not exist or is set already, so that the core
  // does not hand it on.
  datatype Status = OK | FAIL | NOT_AVAILABLE | IGNORED

  datatype Trigger = Trigger(evt: nat, adr: nat)

  const NONE: Trigger := Trigger(0, 0)

  // How far the two words of a trigger were written.
  datatype Extent = Nothing | EventOnly | Both

  function Store(before: Trigger, t: Trigger, how: Extent): Trigger {
    match how
    case Nothing => before
    case EventOnly => before.(evt := t.evt)
    case Both => t
  }

  // The triggers after such a write to one slot.
  function Stored(trig: seq<Trigger>, slot: nat, t: Trigger, how: Extent): seq<Trigger>
    requires slot < |trig|
  {
    trig[slot := Store(trig[slot], t, how)]
  }

  datatype Breakpoint = Breakpoint(hard: bool, address: nat, isSet: bool, slot: nat)

  // The low 32 bits of an address, bit 0 cleared.
  function Even(address: nat): nat { address % 0x1_0000_0000 / 2 * 2 }

  // Where a step is to end: at the given address, or behind the instruction at
  // the program counter, whose first byte is odd if it is four bytes long.
  function NextPc(current: bool, address: nat, pcReg: nat, first: nat): nat {
    if !current then Even(address)
    else (Even(pcReg) + if first % 2 == 1 then 4 else 2) % 0x1_0000_0000
  }

  // Triggers sit on even 32-bit addresses: at the address asked for or one
  // below it, or two or four bytes behind the program counter.
  lemma TriggerAddresses(current: bool, address: nat, pcReg: nat, first: nat)
    ensures Even(address) % 2 == 0 && Even(address) <= address % 0x1_0000_0000 <= Even(address) + 1 < 0x1_0000_0000
    ensures var next := NextPc(current, address, pcReg, first);
      && next % 2 == 0 && next < 0x1_0000_0000
      && (!current ==> next == Even(address))
      && (current ==> (next + 0x1_0000_0000 - Even(pcReg)) % 0x1_0000_0000 == if first % 2 == 1 then 4 else 2)
  {
    EvenIsClose(address);
    EvenIsClose(pcReg);
    if current {
      StepsAhead(Even(pcReg), if first % 2 == 1 then 4 else 2);
    }
  }

  lemma EvenIsClose(a: nat)
    ensures Even(a) % 2 == 0 && Even(a) <= a % 0x1_0000_0000 <= Even(a) + 1 < 0x1_0000_0000
  {
  }

  lemma StepsAhead(pc: nat, n: nat)
    requires pc < 0x1_0000_0000 && pc % 2 == 0 && (n == 2 || n == 4)
    ensures var next := (pc + n) % 0x1_0000_0000;
      next % 2 == 0 && (next + 0x1_0000_0000 - pc) % 0x1_0000_0000 == n
  {
    if pc + n >= 0x1_0000_0000 {
      assert (pc + n) % 0x1_0000_0000 == pc + n - 0x1_0000_0000;
    } else {
      assert (pc + n) % 0x1_0000_0000 == pc + n;
    }
  }

  function HaltAt(bp: Breakpoint): Trigger { Trigger(PC_HALT, Even(bp.address)) }

  predicate Owns(bp: Breakpoint, slot: nat) { bp.hard && bp.isSet && bp.slot == slot }

  predicate Busy(bps: seq<Breakpoint>, slot: nat) {
    exists k :: 0 <= k < |bps| && Owns(bps[k], slot)
  }

  // Breakpoints that are set own distinct user slots; others are not set.
  predicate Owned(bps: seq<Breakpoint>) {
    && (forall k :: 0 <= k < |bps| && bps[k].isSet ==> bps[k].hard && bps[k].slot < USER_SLOTS)
    && (forall j, k :: 0 <= j < k < |bps| && bps[j].isSet && bps[k].isSet ==> bps[j].slot != bps[k].slot)
  }

  // Each user slot holds its owner's trigger, the others hold none.
  predicate Armed(bps: seq<Breakpoint>, trig: seq<Trigger>) {
    && |trig| == 8 && trig[STEP_SLOT] == NONE
    && (forall k :: 0 <= k < |bps| && bps[k].isSet && bps[k].slot < USER_SLOTS ==> trig[bps[k].slot] == HaltAt(bps[k]))
    && (forall slot :: 0 <= slot < USER_SLOTS && !Busy(bps, slot) ==> trig[slot] == NONE)
  }

  // ----------------------------------------------------------- seven is full

  function SetCount(bps: seq<Breakpoint>): nat {
    if bps == [] then 0 else SetCount(bps[..|bps| - 1]) + if bps[|bps| - 1].isSet then 1 else 0
  }

  function SetSlots(bps: seq<Breakpoint>): set<nat> {
    set k | 0 <= k < |bps| && bps[k].isSet :: bps[k].slot
  }

  function UserSlots(): (s: set<nat>)
    ensures |s| == 7 && forall i: nat :: i in s <==> i < USER_SLOTS
  {
    {0, 1, 2, 3, 4, 5, 6}
  }

  lemma SlotsOfFront(bps: seq<Breakpoint>)
    requires bps != []
    ensures var front, last := bps[..|bps| - 1], bps[|bps| - 1];
      SetSlots(bps) == SetSlots(front) + if last.isSet then {last.slot} else {}
  {
    var front, last := bps[..|bps| - 1], bps[|bps| - 1];
    forall slot | slot in SetSlots(bps) ensures slot in SetSlots(front) || (last.isSet && slot == last.slot) {
      var k :| 0 <= k < |bps| && bps[k].isSet && bps[k].slot == slot;
      assert k < |front| ==> front[k] == bps[k];
    }
    forall slot | slot in SetSlots(front) ensures slot in SetSlots(bps) {
      var k :| 0 <= k < |front| && front[k].isSet && front[k].slot == slot;
      assert bps[k] == front[k];
    }
  }

  lemma {:induction false} CountIsSlots(bps: seq<Breakpoint>)
    requires Owned(bps)
    ensures |SetSlots(bps)| == SetCount(bps)
  {
    if bps != [] {
      var front, last := bps[..|bps| - 1], bps[|bps| - 1];
      CountIsSlots(front);
      SlotsOfFront(bps);
      assert last.isSet ==> last.slot !in SetSlots(front);
      hide SetSlots, Owned;
    }
  }

  lemma Subset(a: set<nat>, b: set<nat>)
    requires a <= b
    ensures |a| <= |b| && (|a| == |b| <==> a == b)
  {
    assert b == a + (b - a);
  }

  // All user slots are busy exactly when seven breakpoints are set.
  lemma FullExactly(bps: seq<Breakpoint>)
    requires Owned(bps)
    ensures (forall slot :: 0 <= slot < USER_SLOTS ==> Busy(bps, slot)) <==> SetCount(bps) == USER_SLOTS
    ensures SetCount(bps) <= USER_SLOTS
  {
    CountIsSlots(bps);
    var s := SetSlots(bps);
    forall slot: nat ensures slot in s <==> Busy(bps, slot) {
      if slot in s {
        var k :| 0 <= k < |bps| && bps[k].isSet && bps[k].slot == slot;
        assert Owns(bps[k], slot);
      }
    }
    assert s <= UserSlots();
    Subset(s, UserSlots());
  }

  // The lowest user slot from `slot` on that no breakpoint owns; 7 if there is
  // none.
  function LowestFree(bps: seq<Breakpoint>, slot: nat): (r: nat)
    requires slot <= USER_SLOTS
    ensures slot <= r <= USER_SLOTS && (r < USER_SLOTS ==> !Busy(bps, r))
    ensures forall i :: slot <= i < r ==> Busy(bps, i)
    decreases USER_SLOTS - slot
  {
    if slot == USER_SLOTS || !Busy(bps, slot) then slot else LowestFree(bps, slot + 1)
  }

  lemma LowestIsUnique(bps: seq<Breakpoint>, slot: nat)
    requires slot < USER_SLOTS && !Busy(bps, slot) && forall i :: 0 <= i < slot ==> Busy(bps, i)
    ensures LowestFree(bps, 0) == slot
  {
  }

  // ------------------------------------------------- where a step leaves slot 7

  // Slot 7 after a step to next, when the first write got as far as `first`
  // and, if that was all the way, the last one as far as `last`.
  function AfterStep(before: Trigger, next: nat, first: Extent, last: Extent): Trigger {
    var armed := Store(before, Trigger(PC_HALT, next), first);
    if first.Both? then Store(armed, NONE, last) else armed
  }

  // Exactly when slot 7 is clear after a step, and when it would still halt the
  // core: the event word of a write that failed half way is enough.
  lemma StepLeavesClearExactly(before: Trigger, next: nat, first: Extent, last: Extent)
    ensures AfterStep(before, next, first, last) == NONE <==>
      match first
      case Nothing => before == NONE
      case EventOnly => false
      case Both => last.Both? || (last.EventOnly? && next == 0)
    ensures before == NONE ==>
      (AfterStep(before, next, first, last).evt == PC_HALT <==> first.EventOnly? || (first.Both? && last.Nothing?))
  {
  }

  // ------------------------------------------------ where a reset leaves a slot

  // One slot after a clear that reached some of the sixteen words.
  function Wiped(trig: seq<Trigger>, words: seq<bool>, i: nat): Trigger
    requires |trig| == 8 && |words| == 16 && i < 8
  {
    Trigger(if words[2 * i] then 0 else trig[i].evt, if words[2 * i + 1] then 0 else trig[i].adr)
  }

  // The clear left nothing in the slots that no breakpoint owns.
  predicate Cleared(bps: seq<Breakpoint>, trig: seq<Trigger>, words: seq<bool>)
    requires |trig| == 8 && |words| == 16
  {
    forall i :: 0 <= i < 8 && !Busy(bps, i) ==> Wiped(trig, words, i) == NONE
  }

  lemma AllCleared(bps: seq<Breakpoint>, trig: seq<Trigger>, words: seq<bool>)
    requires |trig| == 8 && |words| == 16 && forall w :: 0 <= w < 16 ==> words[w]
    ensures Cleared(bps, trig, words)
  {
  }

  function AllWiped(trig: seq<Trigger>, words: seq<bool>): seq<Trigger>
    requires |trig| == 8 && |words| == 16
  {
    seq(8, i requires 0 <= i < 8 => Wiped(trig, words, i))
  }

  // Once the breakpoints that are set have been written again the triggers are
  // in order exactly if the clear left nothing in the other slots.
  lemma ResetIsArmedExactly(bps: seq<Breakpoint>, trig: seq<Trigger>, words: seq<bool>, trig': seq<Trigger>)
    requires Owned(bps) && |trig| == 8 && |words| == 16
    requires Reapplied(bps, AllWiped(trig, words), trig', |bps|)
    ensures Armed(bps, trig') <==> Cleared(bps, trig, words)
  {
    StepSlotIsFree(bps);
    var wiped := AllWiped(trig, words);
    assert forall i :: 0 <= i < 8 && !Busy(bps, i) ==> trig'[i] == wiped[i];
  }

  // --------------------------------------------------------------- a session

  datatype Command =
    | Add(k: nat)
    | Remove(k: nat)
    | Step(current: bool, address: nat, pcReg: nat, first: nat, reapply: bool)
    | ResetHalt

  // One command, its reply, and whether some write to the triggers failed.
  datatype Entry = Entry(cmd: Command, reply: Status, failed: bool)

  // What a command with this reply makes of the breakpoints.
  function After(bps: seq<Breakpoint>, e: Entry): seq<Breakpoint> {
    if e.reply.OK? && e.cmd.Add? && e.cmd.k < |bps| then
      bps[e.cmd.k := bps[e.cmd.k].(isSet := true, slot := LowestFree(bps, 0))]
    else if e.reply.OK? && e.cmd.Remove? && e.cmd.k < |bps| then
      bps[e.cmd.k := bps[e.cmd.k].(isSet := false)]
    else bps
  }

  function BpsAfter(bps: seq<Breakpoint>, log: seq<Entry>): seq<Breakpoint> {
    if log == [] then bps else After(BpsAfter(bps, log[..|log| - 1]), log[|log| - 1])
  }

  // Which replies are possible, and which of them only if a write failed.
  predicate Fits(bps: seq<Breakpoint>, e: Entry) {
    match e.cmd
    case Add(k) =>
      && (e.reply.IGNORED? <==> k >= |bps| || bps[k].isSet)
      && (k < |bps| && !bps[k].isSet ==>
            && (e.reply.NOT_AVAILABLE? <==> !bps[k].hard || SetCount(bps) == USER_SLOTS)
            && (e.reply.FAIL? <==> e.failed))
    case Remove(k) =>
      && !e.reply.NOT_AVAILABLE? && (e.reply.IGNORED? <==> k >= |bps|)
      && (e.reply.FAIL? <==> e.failed)
    case Step(_, _, _, _, _) => e.reply.OK? || e.reply.FAIL?
    case ResetHalt => e.reply.OK? || e.reply.FAIL?
  }

  // The triggers are known to be in order: they were, or the latest reset put
  // them in order, and no write has failed since.
  predicate Undisturbed(armed: bool, log: seq<Entry>) {
    if log == [] then armed
    else
      var e := log[|log| - 1];
      !e.failed && ((e.cmd.ResetHalt? && e.reply.OK?) || Undisturbed(armed, log[..|log| - 1]))
  }

  class Target {
    const bus: nat -> bool      // whether the n-th access succeeds
    var clock: nat
    var bps: seq<Breakpoint>
    var trig: seq<Trigger>
    var stepActive: bool

    predicate Valid()
      reads this
    {
      |trig| == 8 && Owned(bps) && !stepActive
    }

    constructor (bus: nat -> bool, bps: seq<Breakpoint>, trig: seq<Trigger>)
      requires |trig| == 8 && Owned(bps)
      ensures Valid() && this.bus == bus && this.bps == bps && this.trig == trig && clock == 0
    {
      this.bus := bus;
      this.bps := bps;
      this.trig := trig;
      stepActive, clock := false, 0;
    }

    // No access from one count to the next failed.
    ghost predicate AllWell(from: nat, to: nat) { forall n :: from <= n < to ==> bus(n) }

    method Access() returns (ok: bool)
      modifies this`clock
      ensures ok == bus(old(clock)) && clock == old(clock) + 1
    {
      ok := bus(clock);
      clock := clock + 1;
    }

    // How far a trigger gets that is written from this access on.
    function ExtentAt(n: nat): Extent {
      if !bus(n) then Nothing else if !bus(n + 1) then EventOnly else Both
    }

    // Both words of a trigger; the first may be written and the second not.
    method WriteTrig(slot: nat, t: Trigger) returns (ok: bool, ghost how: Extent)
      requires |trig| == 8 && slot < 8
      modifies this`trig, this`clock
      ensures how == ExtentAt(old(clock)) && (ok <==> how.Both?)
      ensures trig == old(trig)[slot := Store(old(trig)[slot], t, how)]
      ensures clock == old(clock) + if how.Nothing? then 1 else 2
      ensures AllWell(old(clock), clock) ==> ok
    {
      ghost var was := trig;
      how := ExtentAt(clock);
      ok := Access();
      if !ok {
        assert trig == was[slot := was[slot]];
        return;
      }
      trig := trig[slot := trig[slot].(evt := t.evt)];
      ok := Access();
      if !ok {
        return;
      }
      trig := trig[slot := trig[slot].(adr := t.adr)];
      assert trig == was[slot := t];
    }

    method TrigSlotBusy(slot: nat) returns (busy: bool)
      ensures busy == Busy(bps, slot)
    {
      var k := 0;
      while k < |bps|
        invariant 0 <= k <= |bps| && forall j :: 0 <= j < k ==> !Owns(bps[j], slot)
      {
        if Owns(bps[k], slot) {
          return true;
        }
        k := k + 1;
      }
      busy := false;
    }

    // The lowest free user slot, -1 if there is none.
    method FindFreeTrigSlot() returns (slot: int)
      requires Owned(bps)
      ensures slot == -1 <==> SetCount(bps) == USER_SLOTS
      ensures slot != -1 ==>
        0 <= slot < USER_SLOTS && !Busy(bps, slot) && forall i :: 0 <= i < slot ==> Busy(bps, i)
    {
      FullExactly(bps);
      slot := 0;
      while slot < USER_SLOTS
        invariant 0 <= slot <= USER_SLOTS && forall i :: 0 <= i < slot ==> Busy(bps, i)
      {
        var busy := TrigSlotBusy(slot);
        if !busy {
          return;
        }
        slot := slot + 1;
      }
      slot := -1;
    }

    // A hardware breakpoint is refused exactly when seven are set.  If its
    // trigger cannot be written it stays unset, and its slot holds what was.
    method AddBreakpoint(k: nat) returns (s: Status, ghost failed: bool, ghost how: Extent)
      requires Valid() && k < |bps| && !bps[k].isSet
      modifies this`bps, this`trig, this`clock
      ensures Valid() && Fits(old(bps), Entry(Add(k), s, failed))
      ensures clock >= old(clock) && (AllWell(old(clock), clock) ==> !failed)
      ensures bps == After(old(bps), Entry(Add(k), s, failed))
      ensures s == NOT_AVAILABLE ==> trig == old(trig)
      ensures |old(trig)| == 8 && |bps| == |old(bps)|
      ensures s == FAIL ==> !how.Both? && trig == Stored(old(trig), LowestFree(bps, 0), HaltAt(bps[k]), how)
      ensures old(Armed(bps, trig)) && !failed ==> Armed(bps, trig)
    {
      failed, how := false, Nothing;
      if !bps[k].hard {
        return NOT_AVAILABLE, failed, how;
      }
      var slot := FindFreeTrigSlot();
      if slot < 0 {
        return NOT_AVAILABLE, failed, how;
      }
      LowestIsUnique(bps, slot);
      var ok;
      ok, how := WriteTrig(slot, HaltAt(bps[k]));
      if !ok {
        failed := true;
        assert trig == Stored(old(trig), slot, HaltAt(bps[k]), how);
        return FAIL, failed, how;
      }
      ghost var before := bps;
      bps := bps[k := bps[k].(isSet := true, slot := slot)];
      Added(before, old(trig), trig, k, slot);
      s := OK;
    }

    // A breakpoint whose trigger cannot be cleared stays set, although its event
    // word may be gone.
    method RemoveBreakpoint(k: nat) returns (s: Status, ghost failed: bool, ghost how: Extent)
      requires Valid() && k < |bps|
      modifies this`bps, this`trig, this`clock
      ensures Valid() && Fits(old(bps), Entry(Remove(k), s, failed))
      ensures clock >= old(clock) && (AllWell(old(clock), clock) ==> !failed)
      ensures bps == After(old(bps), Entry(Remove(k), s, failed))
      ensures |old(trig)| == 8 && |bps| == |old(bps)|
      ensures s == FAIL ==> !how.Both? && bps[k].slot < 8 && trig == Stored(old(trig), bps[k].slot, NONE, how)
      ensures old(Armed(bps, trig)) && !failed ==> Armed(bps, trig)
    {
      failed, how := false, Nothing;
      if !bps[k].hard || !bps[k].isSet {
        assert bps[k := bps[k].(isSet := false)] == bps;
        return OK, failed, how;
      }
      var ok;
      ok, how := WriteTrig(bps[k].slot, NONE);
      if !ok {
        failed := true;
        assert trig == Stored(old(trig), bps[k].slot, NONE, how);
        return FAIL, failed, how;
      }
      ghost var before := bps;
      bps := bps[k := bps[k].(isSet := false)];
      Removed(before, old(trig), trig, k);
      s := OK;
    }

    // Every breakpoint that is set is written to its slot again.
    method ReapplyBreakpoints() returns (s: Status)
      requires |trig| == 8 && Owned(bps)
      modifies this`trig, this`clock
      ensures |trig| == 8 && (s == OK || s == FAIL)
      ensures clock >= old(clock) && (AllWell(old(clock), clock) ==> s == OK)
      ensures forall i :: 0 <= i < 8 && !Busy(bps, i) ==> trig[i] == old(trig)[i]
      ensures s == OK ==> Reapplied(bps, old(trig), trig, |bps|)
      ensures bps == [] ==> s == OK && clock == old(clock) && trig == old(trig)
    {
      var k := 0;
      while k < |bps|
        invariant 0 <= k <= |bps| && |trig| == 8
        invariant Reapplied(bps, old(trig), trig, k)
        invariant clock >= old(clock) && (k == 0 ==> clock == old(clock) && trig == old(trig))
      {
        if bps[k].hard && bps[k].isSet && bps[k].slot < 8 {
          ghost var t := trig;
          assert Owns(bps[k], bps[k].slot);
          assert Busy(bps, bps[k].slot);
          var ok;
          ghost var how;
          ok, how := WriteTrig(bps[k].slot, HaltAt(bps[k]));
          if !ok {
            return FAIL;
          }
          ReappliedOne(bps, old(trig), t, trig, k);
        }
        k := k + 1;
      }
      s := OK;
    }

    // A step.  While the core runs, slot 7 halts it at the next instruction and
    // the user's triggers are in place.  What it leaves in slot 7 depends on how
    // far its first and its last write got, and only on that; the result of the
    // last one is not looked at.
    method StepOnce(current: bool, address: nat, pcReg: nat, first: nat, handleBreakpoints: bool)
      returns (s: Status, ghost failed: bool, ghost how: Extent, ghost last: Extent, ghost running: seq<Trigger>)
      requires Valid()
      modifies this`trig, this`clock, this`stepActive
      ensures Valid() && (s == OK || s == FAIL)
      ensures clock >= old(clock) && (AllWell(old(clock), clock) ==> s == OK && !failed)
      ensures trig[STEP_SLOT] == AfterStep(old(trig)[STEP_SLOT], NextPc(current, address, pcReg, first), how, last)
      ensures forall i :: 0 <= i < USER_SLOTS && !Busy(bps, i) ==> trig[i] == old(trig)[i]
      ensures !failed ==> how.Nothing? || (how.Both? && last.Both?)
      ensures old(Armed(bps, trig)) && !failed ==> Armed(bps, trig)
      ensures s == OK ==> how.Both? && |running| == 8
      ensures s == OK ==> running[STEP_SLOT] == Trigger(PC_HALT, NextPc(current, address, pcReg, first))
      ensures s == OK && old(Armed(bps, trig)) ==> Armed(bps, running[STEP_SLOT := NONE])
      ensures s == OK && handleBreakpoints ==>
        forall k :: 0 <= k < |bps| && bps[k].isSet ==> running[bps[k].slot] == HaltAt(bps[k])
      // The accesses of a target without breakpoints, one by one.
      ensures bps == [] ==> how == if bus(old(clock)) then ExtentAt(old(clock) + 1) else Nothing
      ensures bps == [] && how.Both? ==>
        last == ExtentAt(old(clock) + 4) && (s == OK <==> bus(old(clock) + 3))
    {
      failed, running, how, last := false, [], Nothing, Nothing;
      s := FAIL;
      ghost var t := trig;
      var nextPc := NextPc(current, address, pcReg, first);
      StepSlotIsFree(bps);
      var ok := Access();           // halt, and read the program counter
      if !ok {
        return;
      }
      stepActive := true;
      ok, how := WriteTrig(STEP_SLOT, Trigger(PC_HALT, nextPc));
      if !ok {
        failed := true;
        stepActive := false;
        return;
      }
      ghost var t1 := trig;
      s, failed, running := RunStep(handleBreakpoints);
      if !failed && Armed(bps, t) {
        UsersStay(bps, t, t1, trig, handleBreakpoints);
      }
      hide Busy, Reapplied;
      ghost var t2 := trig;
      ok, last := WriteTrig(STEP_SLOT, NONE);
      failed := failed || !ok;
      stepActive := false;
      assert Armed(bps, t) && !failed ==> trig == t;
    }

    // The breakpoints are written again, if asked for, and the core runs until
    // it halts.
    method RunStep(handleBreakpoints: bool) returns (s: Status, ghost failed: bool, ghost running: seq<Trigger>)
      requires stepActive
      requires |trig| == 8 && Owned(bps)
      modifies this`trig, this`clock
      ensures |trig| == 8 && running == trig && (s == OK || s == FAIL) && (s == OK ==> !failed)
      ensures clock >= old(clock) && (AllWell(old(clock), clock) ==> s == OK && !failed)
      ensures forall i :: 0 <= i < 8 && !Busy(bps, i) ==> trig[i] == old(trig)[i]
      ensures !failed ==> if handleBreakpoints then Reapplied(bps, old(trig), trig, |bps|) else trig == old(trig)
      ensures bps == [] ==> clock == old(clock) + 1 && (s == OK <==> bus(old(clock)))
    {
      failed := false;
      if handleBreakpoints {
        s := ReapplyBreakpoints();
        if s != OK {
          failed := true;
          running := trig;
          return;
        }
      }
      running := trig;
      var ok := Access();             // resume, wait for the halt, poll
      s := if ok then OK else FAIL;
    }

    // One block write of sixteen words; one that fails has reached some of them.
    method ClearTriggers() returns (ok: bool, ghost words: seq<bool>)
      requires |trig| == 8
      modifies this`trig, this`clock
      ensures |words| == 16 && ok == bus(old(clock)) && (ok ==> forall w :: 0 <= w < 16 ==> words[w])
      ensures |old(trig)| == 8 && trig == AllWiped(old(trig), words)
      ensures clock == old(clock) + 17
      ensures forall w :: 0 <= w < 16 ==> words[w] == (bus(old(clock)) || bus(old(clock) + 1 + w))
    {
      var from, before := clock, trig;
      ok := bus(from);
      var reached := seq(16, w requires 0 <= w < 16 => bus(from) || bus(from + 1 + w));
      words := reached;
      trig := seq(8, i requires 0 <= i < 8 =>
        Trigger(if reached[2 * i] then 0 else before[i].evt, if reached[2 * i + 1] then 0 else before[i].adr));
      clock := clock + 17;
    }

    // Reset and halt.  Whether the triggers could be cleared is not looked at.
    method DeassertResetHalt() returns (s: Status, ghost failed: bool, ghost words: seq<bool>)
      requires Valid()
      modifies this`trig, this`clock
      ensures Valid() && (s == OK || s == FAIL) && |words| == 16
      ensures clock >= old(clock) && (AllWell(old(clock), clock) ==> s == OK && !failed)
      ensures |old(trig)| == 8
      ensures s == OK ==> forall k :: 0 <= k < |bps| && bps[k].isSet ==> trig[bps[k].slot] == HaltAt(bps[k])
      ensures s == OK ==> forall i :: 0 <= i < 8 && !Busy(bps, i) ==> trig[i] == Wiped(old(trig), words, i)
      ensures s == OK ==> (Armed(bps, trig) <==> Cleared(bps, old(trig), words))
      ensures s == OK && !failed ==> Armed(bps, trig)
      ensures old(Armed(bps, trig)) && !failed ==> Armed(bps, trig)
      // The accesses of a target without breakpoints, one by one.
      ensures bps == [] ==> (s == OK <==> bus(old(clock)) && bus(old(clock) + 18))
      ensures bus(old(clock)) ==>
        forall w :: 0 <= w < 16 ==> words[w] == (bus(old(clock) + 1) || bus(old(clock) + 2 + w))
    {
      words := seq(16, _ => false);
      failed := false;
      s := FAIL;
      var ok := Access();           // poll
      if !ok {
        return;
      }
      s, failed, words := Restore();
      if s != OK {
        return;
      }
      hide Busy, Cleared, Armed;
      ok := Access();               // halt
      s := if ok then OK else FAIL;
    }

    // The triggers are cleared, and the breakpoints written again.
    method Restore() returns (s: Status, ghost failed: bool, ghost words: seq<bool>)
      requires |trig| == 8 && Owned(bps)
      modifies this`trig, this`clock
      ensures |trig| == 8 && |old(trig)| == 8 && (s == OK || (s == FAIL && failed)) && |words| == 16
      ensures clock >= old(clock) && (AllWell(old(clock), clock) ==> s == OK && !failed)
      ensures s == OK ==> forall k :: 0 <= k < |bps| && bps[k].isSet ==> trig[bps[k].slot] == HaltAt(bps[k])
      ensures s == OK ==> forall i :: 0 <= i < 8 && !Busy(bps, i) ==> trig[i] == Wiped(old(trig), words, i)
      ensures s == OK ==> (Armed(bps, trig) <==> Cleared(bps, old(trig), words))
      ensures !failed ==> s == OK && Armed(bps, trig)
      ensures bps == [] ==> s == OK && clock == old(clock) + 17
      ensures forall w :: 0 <= w < 16 ==> words[w] == (bus(old(clock)) || bus(old(clock) + 1 + w))
    {
      ghost var t := trig;
      var ok;
      ok, words := ClearTriggers();
      failed := !ok;
      ghost var from := clock;
      s := ReapplyBreakpoints();
      if s != OK {
        failed := true;
        return;
      }
      hide Armed, Cleared;
      ResetIsArmedExactly(bps, t, words, trig);
      if ok {
        AllCleared(bps, t, words);
      }
    }

    // Any sequence of commands, whichever accesses fail.  The replies and the
    // failed writes decide the breakpoints; the triggers are in order as long
    // as no write has failed, and again after a reset in which none did.
    method Session(commands: seq<Command>) returns (ghost log: seq<Entry>)
      requires Valid()
      modifies this
      ensures Valid() && |log| == |commands| && forall i :: 0 <= i < |log| ==> log[i].cmd == commands[i]
      ensures bps == BpsAfter(old(bps), log) && AllFit(old(bps), log)
      ensures Undisturbed(old(Armed(bps, trig)), log) ==> Armed(bps, trig)
      ensures clock >= old(clock) && (AllWell(old(clock), clock) ==> NoneFailed(log))
      ensures old(Armed(bps, trig)) && AllWell(old(clock), clock) ==> Armed(bps, trig)
    {
      log := [];
      ghost var armed := Armed(bps, trig);
      var n := 0;
      while n < |commands|
        invariant n <= |commands| && Valid() && |log| == n
        invariant forall i :: 0 <= i < n ==> log[i].cmd == commands[i]
        invariant Logged(old(bps), armed, log, bps, trig)
        invariant clock >= old(clock) && (AllWell(old(clock), clock) ==> NoneFailed(log))
      {
        hide Logged, Armed, Fits, After, Owned, NoneFailed;
        ghost var was, from, bps1, trig1 := log, clock, bps, trig;
        ghost var reply, failed := Perform(commands[n]);
        log := was + [Entry(commands[n], reply, failed)];
        OneMoreEntry(old(bps), armed, was, Entry(commands[n], reply, failed), bps1, trig1, bps, trig);
        assert AllWell(old(clock), clock) ==> AllWell(old(clock), from) && AllWell(from, clock);
        n := n + 1;
      }
      NoneFailedIsUndisturbed(log);
    }

    method Perform(cmd: Command) returns (ghost reply: Status, ghost failed: bool)
      requires Valid()
      modifies this
      ensures Valid() && Fits(old(bps), Entry(cmd, reply, failed))
      ensures clock >= old(clock) && (AllWell(old(clock), clock) ==> !failed && reply != FAIL)
      ensures bps == After(old(bps), Entry(cmd, reply, failed))
      ensures (old(Armed(bps, trig)) || (cmd.ResetHalt? && reply.OK?)) && !failed ==> Armed(bps, trig)
    {
      reply, failed := IGNORED, false;
      match cmd
      case Add(k) =>
        if k < |bps| && !bps[k].isSet {
          var s;
          ghost var how;
          s, failed, how := AddBreakpoint(k);
          reply := s;
        }
      case Remove(k) =>
        if k < |bps| {
          var s;
          ghost var how;
          s, failed, how := RemoveBreakpoint(k);
          reply := s;
        }
      case Step(current, address, pcReg, first, reapply) =>
        ghost var how, last, running;
        var s;
        s, failed, how, last, running := StepOnce(current, address, pcReg, first, reapply);
        reply := s;
      case ResetHalt =>
        ghost var words;
        var s;
        s, failed, words := DeassertResetHalt();
        reply := s;
    }
  }

  predicate NoneFailed(log: seq<Entry>) {
    forall k :: 0 <= k < |log| ==> !log[k].failed && !log[k].reply.FAIL?
  }

  lemma {:induction false} NoneFailedIsUndisturbed(log: seq<Entry>)
    ensures NoneFailed(log) ==> Undisturbed(true, log)
  {
    if log != [] {
      NoneFailedIsUndisturbed(log[..|log| - 1]);
    }
  }

  predicate AllFit(bps: seq<Breakpoint>, log: seq<Entry>) {
    forall k :: 0 <= k < |log| ==> Fits(BpsAfter(bps, log[..k]), log[k])
  }

  // The log accounts for the breakpoints, and for the triggers as far as it can.
  ghost predicate Logged(bps0: seq<Breakpoint>, armed: bool, log: seq<Entry>, bps: seq<Breakpoint>, trig: seq<Trigger>) {
    bps == BpsAfter(bps0, log) && AllFit(bps0, log) && (Undisturbed(armed, log) ==> Armed(bps, trig))
  }

  lemma OneMoreEntry(bps0: seq<Breakpoint>, armed: bool, log: seq<Entry>, e: Entry, bps: seq<Breakpoint>,
                     trig: seq<Trigger>, bps': seq<Breakpoint>, trig': seq<Trigger>)
    requires Logged(bps0, armed, log, bps, trig) && Fits(bps, e) && bps' == After(bps, e)
    requires (Armed(bps, trig) || (e.cmd.ResetHalt? && e.reply.OK?)) && !e.failed ==> Armed(bps', trig')
    ensures Logged(bps0, armed, log + [e], bps', trig')
    ensures NoneFailed(log) && !e.failed && !e.reply.FAIL? ==> NoneFailed(log + [e])
  {
    hide Fits, Armed, After;
    var all := log + [e];
    assert all[..|all| - 1] == log;
    forall k | 0 <= k < |all| ensures Fits(BpsAfter(bps0, all[..k]), all[k]) {
      assert k < |log| ==> all[..k] == log[..k] && all[k] == log[k];
    }
  }

  // ---------------------------------------------------- accesses that go wrong

  // The second access of the first write fails: the step fails, and slot 7,
  // clear before, would halt the core.
  method StepLeavesLiveTrigger() returns (t: Target)
    ensures t.bps == [] && |t.trig| == 8 && t.trig[STEP_SLOT] == Trigger(PC_HALT, 0)
  {
    t := new Target(n => n < 2, [], seq(8, _ => NONE));
    var s;
    ghost var failed, how, last, running;
    s, failed, how, last, running := t.StepOnce(false, 0x80000020, 0, 0, false);
    assert s == FAIL && how == EventOnly;
  }

  // The last write fails: the step succeeds, and its trigger stays.
  method StepSucceedsAndLeavesTrigger() returns (t: Target, s: Status)
    ensures s == OK && |t.trig| == 8 && t.trig[STEP_SLOT] == Trigger(PC_HALT, 0x80000020)
  {
    t := new Target(n => n < 4, [], seq(8, _ => NONE));
    ghost var failed, how, last, running;
    s, failed, how, last, running := t.StepOnce(false, 0x80000020, 0, 0, false);
  }

  // The clear fails and reaches nothing: reset and halt succeeds, and a trigger
  // that no breakpoint owns stays live.
  method ResetSucceedsAndLeavesTrigger() returns (t: Target, s: Status)
    ensures s == OK && |t.trig| == 8 && t.bps == [] && t.trig[3] == Trigger(PC_HALT, 0x80000020)
    ensures !Armed(t.bps, t.trig)
  {
    var stale := seq(8, _ => NONE)[3 := Trigger(PC_HALT, 0x80000020)];
    t := new Target(n => n == 0 || n == 18, [], stale);
    ghost var failed, words;
    s, failed, words := t.DeassertResetHalt();
    assert !words[6] && !words[7];
    assert !Busy(t.bps, 3);
  }

  // ------------------------------------------------------------------- lemmas

  // The triggers after the first n breakpoints have been written again.
  ghost predicate Reapplied(bps: seq<Breakpoint>, before: seq<Trigger>, after: seq<Trigger>, n: nat) {
    && |before| == |after| == 8
    && (forall k :: 0 <= k < n && k < |bps| && bps[k].isSet && bps[k].slot < USER_SLOTS ==>
          after[bps[k].slot] == HaltAt(bps[k]))
    && (forall i :: 0 <= i < 8 && !Busy(bps, i) ==> after[i] == before[i])
  }

  lemma ReappliedOne(bps: seq<Breakpoint>, t0: seq<Trigger>, t: seq<Trigger>, t': seq<Trigger>, k: nat)
    requires Owned(bps) && k < |bps| && Owns(bps[k], bps[k].slot) && Reapplied(bps, t0, t, k)
    requires |t'| == 8 && t'[bps[k].slot] == HaltAt(bps[k])
    requires forall i :: 0 <= i < 8 && i != bps[k].slot ==> t'[i] == t[i]
    ensures Reapplied(bps, t0, t', k + 1)
  {
    assert Busy(bps, bps[k].slot);
  }

  lemma ReappliedNothing(bps: seq<Breakpoint>, t: seq<Trigger>, t1: seq<Trigger>, t2: seq<Trigger>)
    requires Owned(bps) && Armed(bps, t) && |t1| == 8 && Reapplied(bps, t1, t2, |bps|)
    requires forall i :: 0 <= i < 8 && i != STEP_SLOT ==> t1[i] == t[i]
    ensures forall i :: 0 <= i < 8 && i != STEP_SLOT ==> t2[i] == t[i]
  {
    forall i | 0 <= i < 8 && i != STEP_SLOT ensures t2[i] == t[i] {
      if Busy(bps, i) {
        var k :| 0 <= k < |bps| && Owns(bps[k], i);
      }
    }
  }

  // Writing the breakpoints again changes no user slot of an armed target.
  lemma UsersStay(bps: seq<Breakpoint>, t: seq<Trigger>, t1: seq<Trigger>, t2: seq<Trigger>, reapplied: bool)
    requires Owned(bps) && Armed(bps, t) && |t1| == |t2| == 8
    requires if reapplied then Reapplied(bps, t1, t2, |bps|) else t2 == t1
    requires forall i :: 0 <= i < 8 && i != STEP_SLOT ==> t1[i] == t[i]
    ensures t2[STEP_SLOT := NONE] == t && t2[STEP_SLOT] == t1[STEP_SLOT]
  {
    StepSlotIsFree(bps);
    if reapplied {
      ReappliedNothing(bps, t, t1, t2);
    }
  }

  lemma StepSlotIsFree(bps: seq<Breakpoint>)
    requires Owned(bps)
    ensures !Busy(bps, STEP_SLOT)
  {
    assert forall k :: 0 <= k < |bps| ==> !Owns(bps[k], STEP_SLOT);
  }

  lemma ReappliedAll(bps: seq<Breakpoint>, t: seq<Trigger>, t': seq<Trigger>)
    requires Owned(bps) && Reapplied(bps, t, t', |bps|) && forall i :: 0 <= i < 8 ==> t[i] == NONE
    ensures Armed(bps, t')
  {
    assert forall k :: 0 <= k < |bps| ==> !Owns(bps[k], STEP_SLOT);
  }

  lemma Added(bps: seq<Breakpoint>, t: seq<Trigger>, t': seq<Trigger>, k: nat, slot: nat)
    requires Owned(bps) && k < |bps| && bps[k].hard && !bps[k].isSet && slot < USER_SLOTS && !Busy(bps, slot)
    requires |t| == |t'| == 8 && t'[slot] == HaltAt(bps[k])
    requires forall i :: 0 <= i < 8 && i != slot ==> t'[i] == t[i]
    ensures var bps' := bps[k := bps[k].(isSet := true, slot := slot)];
      Owned(bps') && (Armed(bps, t) ==> Armed(bps', t'))
  {
    var bps' := bps[k := bps[k].(isSet := true, slot := slot)];
    assert Owns(bps'[k], slot);
    forall j | 0 <= j < |bps| && bps[j].isSet ensures bps[j].slot != slot {
      assert !Owns(bps[j], slot);
    }
    forall i | 0 <= i < USER_SLOTS && !Busy(bps', i) ensures !Busy(bps, i) && i != slot {
      assert !Owns(bps'[k], i);
      assert forall j :: 0 <= j < |bps| && j != k ==> bps'[j] == bps[j];
    }
  }

  lemma Removed(bps: seq<Breakpoint>, t: seq<Trigger>, t': seq<Trigger>, k: nat)
    requires Owned(bps) && k < |bps| && bps[k].isSet && bps[k].slot < USER_SLOTS
    requires |t| == |t'| == 8 && t'[bps[k].slot] == NONE
    requires forall i :: 0 <= i < 8 && i != bps[k].slot ==> t'[i] == t[i]
    ensures var bps' := bps[k := bps[k].(isSet := false)];
      Owned(bps') && (Armed(bps, t) ==> Armed(bps', t'))
  {
    var bps' := bps[k := bps[k].(isSet := false)];
    forall i | 0 <= i < USER_SLOTS && !Busy(bps', i) && i != bps[k].slot ensures !Busy(bps, i) {
      assert forall j :: 0 <= j < |bps| && j != k ==> bps'[j] == bps[j];
    }
  }
}
