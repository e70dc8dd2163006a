// The two DMA servers of the EV-function board.  Each slot owns one half of a
// channel; a client arms a slot and then waits for it.  The AXI server keeps
// slot 0 for memory copies and has transmit slots; the AHB server lets slot 0
// do both.
//
// The hardware may finish or fail a running half at any moment, and a wait may
// be notified early, late, or not at all.  Resetting a half stops it.
module ChannelServer {

  const MAX_LEN: nat := 0xFFF
  const NO_PERIPH: nat := 0x3F

  datatype Reply = OK | EINVAL | ENOTSUP | ETIMEOUT | Count(n: nat)

  // One half of a channel: its raw status flags, its descriptor, and, as
  // history, how often it was started, which start raised the end-of-frame flag
  // last, how many bytes each start that ended a frame had delivered, and whether
  // the descriptor has been rewritten since the flags were cleared.
  datatype Half = Half(
    running: bool, eof: bool, err: bool, size: nat, length: nat,
    rewritten: bool, starts: nat, eofOf: nat, frames: map<nat, nat>)

  function Ended(h: Half, n: nat): Half {
    h.(running := false, eof := true, eofOf := h.starts, length := n, rewritten := false, frames := h.frames[h.starts := n])
  }

  function Failed(h: Half): Half { h.(running := false, err := true) }

  // What the hardware may do to a half by itself.
  ghost predicate Evolved(h: Half, h': Half) {
    h' == h || (h.running && (h' == Failed(h) || (h'.length <= MAX_LEN && h' == Ended(h, h'.length))))
  }

  function Reset(h: Half): Half { h.(running := false) }

  function Cleared(h: Half): Half { h.(eof := false, err := false, rewritten := false) }

  function Described(h: Half, len: nat): Half { h.(size := len, length := 0, rewritten := true) }

  function Started(h: Half): Half { h.(running := true, starts := h.starts + 1) }

  // A half as every arm leaves it, up to what the hardware does then.
  function Fresh(h: Half, len: nat): Half {
    Started(Cleared(Reset(Described(h, len))))
  }

  // What a wait makes of the raw status and the descriptor.
  function Verdict(eof: bool, err: bool, length: nat, len: nat): Reply {
    if err then EINVAL
    else if !eof then ETIMEOUT
    else Count(Cut(length, len))
  }

  // The verdict on a half as it stands.
  function VerdictOn(h: Half, len: nat): Reply { Verdict(h.eof, h.err, h.length, len) }

  function Cut(n: nat, len: nat): (r: nat)
    ensures r <= n && r <= len && (r == n || r == len)
  {
    if n > len then len else n
  }

  // A raised flag always belongs to the latest start.
  predicate FlagIsCurrent(h: Half) {
    && (h.eof ==> h.eofOf == h.starts && h.starts in h.frames && (h.frames[h.starts] == h.length || h.rewritten))
    && (h.running ==> !h.eof && !h.err)
    && (forall s :: s in h.frames ==> s <= h.starts)
    && (h.running ==> h.starts !in h.frames)
  }

  lemma EvolvedKeeps(h: Half, h': Half, h'': Half)
    requires Evolved(h, h') && Evolved(h', h'') && FlagIsCurrent(h)
    ensures Evolved(h, h'') && FlagIsCurrent(h')
    ensures h'.starts == h.starts && h'.size == h.size
  {
  }

  // Had the flags been cleared before the reset, a frame that ends in between
  // would pass for the new arm's.
  lemma ClearBeforeResetIsNotEnough(h: Half, len: nat, n: nat)
    requires h.running && n <= MAX_LEN && FlagIsCurrent(h)
    ensures var cleared := Described(Cleared(h), len);
      Evolved(cleared, Ended(cleared, n)) && VerdictOn(Started(Reset(Ended(cleared, n))), len).Count?
      && h.starts + 1 !in Started(Reset(Ended(cleared, n))).frames
    ensures FlagIsCurrent(Fresh(h, len))
  {
  }

  datatype Slot = Slot(open: bool, periph: nat, buf: nat, len: nat)

  datatype Message =
    | Open(slot: nat, mux: nat)
    | Memcpy(dst: nat, src: nat, len: nat)
    | RxArm(slot: nat, buf: nat, len: nat)
    | RxWait(slot: nat)
    | TxArm(slot: nat, buf: nat, len: nat)
    | TxWait(slot: nat)
    | Other

  // ------------------------------------------------------------- transcripts

  // One served message; `start` is the start of the half an arm ended with.
  datatype Entry = Entry(msg: Message, reply: Reply, start: nat)

  function SlotCount(axi: bool): nat { if axi then 5 else 2 }

  predicate IsTx(axi: bool, slot: nat) { axi && (slot == 2 || slot == 4) }

  // Whether the receive calls, or the transmit calls, serve this slot.
  predicate Receives(axi: bool, slot: nat) { slot < SlotCount(axi) && !IsTx(axi, slot) && !(axi && slot == 0) }

  predicate Transmits(axi: bool, slot: nat) { slot < SlotCount(axi) && IsTx(axi, slot) }

  // On the AXI server slots 1 and 3 receive, 2 and 4 transmit and 0 copies; on
  // the AHB server both slots receive.
  lemma SlotsAre(axi: bool, slot: nat)
    ensures Receives(axi, slot) <==> if axi then slot == 1 || slot == 3 else slot <= 1
    ensures Transmits(axi, slot) <==> axi && (slot == 2 || slot == 4)
  {
  }

  predicate Arms(axi: bool, e: Entry, slot: nat) {
    e.reply.OK? && ((e.msg.RxArm? && Receives(axi, slot)) || (e.msg.TxArm? && Transmits(axi, slot))) && e.msg.slot == slot
  }

  predicate Waits(axi: bool, msg: Message, slot: nat) {
    ((msg.RxWait? && Receives(axi, slot)) || (msg.TxWait? && Transmits(axi, slot))) && msg.slot == slot
  }

  // A copy that was started on a slot that clients can arm as well.
  predicate Overrides(axi: bool, e: Entry, slot: nat) { !axi && slot == 0 && e.msg.Memcpy? && e.start > 0 }

  // The arm a slot is armed by after the log, and the latest copy that was
  // started on the slot since.
  datatype Choice = Unarmed | Some(arm: Entry) | Overridden(arm: Entry, copy: Entry)

  function ArmOf(axi: bool, log: seq<Entry>, slot: nat): (r: Choice)
    ensures !r.Unarmed? ==> Arms(axi, r.arm, slot)
    ensures r.Overridden? ==> Overrides(axi, r.copy, slot)
  {
    if log == [] then Unarmed
    else
      var e := log[|log| - 1];
      if Arms(axi, e, slot) then Some(e)
      else if Waits(axi, e.msg, slot) then Unarmed
      else
        var before := ArmOf(axi, log[..|log| - 1], slot);
        if Overrides(axi, e, slot) && !before.Unarmed? then Overridden(before.arm, e) else before
  }

  predicate Succeeds(r: Reply) { r.Count? || r.OK? }

  // A wait that succeeds speaks of the frame that the arm before it received
  // or sent: that very start has ended its frame, and the count is the length
  // delivered, cut to the armed length.  After a copy on the same slot it
  // succeeds only if the copy timed out, and then speaks of the copy.
  predicate Justified(axi: bool, log: seq<Entry>, halves: seq<Half>, k: nat)
    requires k < |log|
  {
    var e := log[k];
    (e.msg.RxWait? || e.msg.TxWait?) && Succeeds(e.reply) ==>
      && Waits(axi, e.msg, e.msg.slot) && e.msg.slot < |halves|
      && match ArmOf(axi, log[..k], e.msg.slot)
         case Unarmed => false
         case Some(arm) => SpeaksOf(e, halves[e.msg.slot], arm.start, arm.msg.len)
         case Overridden(arm, copy) =>
           copy.reply.ETIMEOUT? && SpeaksOf(e, halves[e.msg.slot], copy.start, arm.msg.len)
  }

  predicate IsLesser(n: nat, a: nat, b: nat) { n <= a && n <= b && (n == a || n == b) }

  // The reply reports the frame that this start of the half ended.
  predicate SpeaksOf(e: Entry, h: Half, start: nat, len: nat) {
    start in h.frames && (e.msg.RxWait? ==> e.reply.Count? && IsLesser(e.reply.n, h.frames[start], len))
  }

  // A half that is stopped with its flags down does nothing until it is started.
  predicate Spent(h: Half) { !h.running && !h.eof && !h.err }

  ghost predicate Drift(hs: seq<Half>, hs': seq<Half>) {
    |hs| == |hs'| && forall i :: 0 <= i < |hs| ==> Evolved(hs[i], hs'[i])
  }

  // All halves but one only drift.
  ghost predicate DriftBut(hs: seq<Half>, hs': seq<Half>, slot: nat) {
    |hs| == |hs'| && forall i :: 0 <= i < |hs| && i != slot ==> Evolved(hs[i], hs'[i])
  }

  predicate Current(hs: seq<Half>) {
    forall i :: 0 <= i < |hs| ==> FlagIsCurrent(hs[i])
  }

  lemma DriftTwice(hs: seq<Half>, hs': seq<Half>, hs'': seq<Half>, slot: nat)
    requires Current(hs)
    ensures Drift(hs, hs') && Drift(hs', hs'') ==> Drift(hs, hs'') && Current(hs')
    ensures DriftBut(hs, hs', slot) && DriftBut(hs', hs'', slot) ==> DriftBut(hs, hs'', slot)
  {
    if Drift(hs, hs') && Drift(hs', hs'') {
      forall i | 0 <= i < |hs| ensures Evolved(hs[i], hs''[i]) && FlagIsCurrent(hs'[i]) {
        EvolvedKeeps(hs[i], hs'[i], hs''[i]);
      }
    }
    if DriftBut(hs, hs', slot) && DriftBut(hs', hs'', slot) {
      forall i | 0 <= i < |hs| && i != slot ensures Evolved(hs[i], hs''[i]) {
        EvolvedKeeps(hs[i], hs'[i], hs''[i]);
      }
    }
  }

  // ------------------------------------------- the accesses, one by one

  // One write to a half, and what the hardware does next.
  ghost predicate Wrote(hs: seq<Half>, hs': seq<Half>, i: nat, h: Half) {
    i < |hs| && DriftBut(hs, hs', i) && Evolved(h, hs'[i])
  }

  // Descriptor, reset, clear, go.
  ghost predicate BeganVia(hs: seq<Half>, hs0: seq<Half>, hs1: seq<Half>, hs2: seq<Half>, hs3: seq<Half>,
                           hs': seq<Half>, i: nat, len: nat) {
    && i < |hs| == |hs0| == |hs1| == |hs2| == |hs3| && Drift(hs, hs0)
    && Wrote(hs0, hs1, i, Described(hs0[i], len)) && Wrote(hs1, hs2, i, Reset(hs1[i]))
    && Wrote(hs2, hs3, i, Cleared(hs2[i])) && Wrote(hs3, hs', i, Started(hs3[i]))
  }

  ghost predicate Began(hs: seq<Half>, hs': seq<Half>, i: nat, len: nat) {
    exists hs0, hs1, hs2, hs3 :: BeganVia(hs, hs0, hs1, hs2, hs3, hs', i, len)
  }

  // Wait, read the status, clear it, read the descriptor.
  ghost predicate AwaitedVia(hs: seq<Half>, hs1: seq<Half>, hs2: seq<Half>, hs3: seq<Half>, hs': seq<Half>, i: nat,
                             len: nat, notified: bool, r: Reply) {
    && i < |hs| && Drift(hs, hs1) && Drift(hs1, hs2) && Drift(hs2, hs3) && Wrote(hs3, hs', i, Cleared(hs3[i]))
    && r == if notified then Verdict(hs2[i].eof, hs2[i].err, hs'[i].length, len) else ETIMEOUT
  }

  ghost predicate Awaited(hs: seq<Half>, hs': seq<Half>, i: nat, len: nat, r: Reply) {
    exists hs1, hs2, hs3, notified :: AwaitedVia(hs, hs1, hs2, hs3, hs', i, len, notified, r)
  }

  // What one message does, reply included: the checks of its handler, in order,
  // and the accesses it makes.
  ghost predicate Serves(axi: bool, hw: bool, slots: seq<Slot>, hs: seq<Half>, slots': seq<Slot>, hs': seq<Half>,
                         e: Entry) {
    match e.msg
    case Open(slot, mux) =>
      && e.reply == OpenReply(axi, hw, slot, mux) && hs' == hs && e.start == 0
      && (e.reply.OK? ==> slot < |slots| && slots' == slots[slot := slots[slot].(open := true, periph := mux)])
      && (!e.reply.OK? ==> slots' == slots)
    case Memcpy(dst, src, len) =>
      if CopyReply(hw, dst, src, len).None? then slots' == slots && Copied(hs, hs', SlotCount(axi), len, e)
      else Untouched(slots, hs, slots', hs', e) && e.reply == CopyReply(hw, dst, src, len).r
    case RxArm(slot, buf, len) => ArmServed(axi, hw, slots, hs, slots', hs', Receives(axi, slot), e)
    case TxArm(slot, buf, len) =>
      if axi then ArmServed(axi, hw, slots, hs, slots', hs', Transmits(axi, slot), e)
      else Untouched(slots, hs, slots', hs', e) && e.reply == EINVAL
    case RxWait(slot) => WaitServed(slots, hs, slots', hs', Receives(axi, slot), e)
    case TxWait(slot) => WaitServed(slots, hs, slots', hs', Transmits(axi, slot), e)
    case Other => Untouched(slots, hs, slots', hs', e) && e.reply == EINVAL
  }

  predicate Untouched(slots: seq<Slot>, hs: seq<Half>, slots': seq<Slot>, hs': seq<Half>, e: Entry) {
    slots' == slots && hs' == hs && e.start == 0
  }

  function OpenReply(axi: bool, hw: bool, slot: nat, mux: nat): Reply {
    if slot >= SlotCount(axi) || mux > NO_PERIPH then EINVAL
    else if !hw then ENOTSUP
    else if axi && (slot == 0) != (mux == NO_PERIPH) then EINVAL
    else OK
  }

  // The checks of an arm, in the order of the server at hand.
  function ArmReply(axi: bool, hw: bool, slots: seq<Slot>, serves: bool, slot: nat, buf: nat, len: nat): Reply
    requires |slots| == SlotCount(axi)
  {
    if slot >= SlotCount(axi) || buf == 0 || len == 0 then EINVAL
    else if axi && !serves then EINVAL
    else if !hw || !slots[slot].open then ENOTSUP
    else if !axi && slots[slot].periph == NO_PERIPH then EINVAL
    else if len > MAX_LEN then EINVAL
    else OK
  }

  ghost predicate ArmServed(axi: bool, hw: bool, slots: seq<Slot>, hs: seq<Half>, slots': seq<Slot>, hs': seq<Half>,
                            serves: bool, e: Entry)
    requires e.msg.RxArm? || e.msg.TxArm?
  {
    var i := e.msg.slot;
    && |slots| == SlotCount(axi) && e.reply == ArmReply(axi, hw, slots, serves, i, e.msg.buf, e.msg.len)
    && if e.reply.OK? then
         && slots' == slots[i := slots[i].(buf := e.msg.buf, len := e.msg.len)]
         && i < |hs'| && Began(hs, hs', i, e.msg.len) && e.start == hs'[i].starts
       else Untouched(slots, hs, slots', hs', e)
  }

  ghost predicate WaitServed(slots: seq<Slot>, hs: seq<Half>, slots': seq<Slot>, hs': seq<Half>, serves: bool, e: Entry)
    requires e.msg.RxWait? || e.msg.TxWait?
  {
    var i := e.msg.slot;
    if !serves || i >= |slots| || slots[i].buf == 0 then Untouched(slots, hs, slots', hs', e) && e.reply == EINVAL
    else
      && slots' == slots[i := slots[i].(buf := 0)] && e.start == 0
      && AwaitedAs(hs, hs', i, slots[i].len, e.msg.RxWait?, e.reply)
  }

  // Only a receive returns its count.
  ghost predicate AwaitedAs(hs: seq<Half>, hs': seq<Half>, i: nat, len: nat, counts: bool, r: Reply) {
    exists r0 :: Awaited(hs, hs', i, len, r0) && r == if r0.Count? && !counts then OK else r0
  }

  datatype Refusal = None | Refused(r: Reply)

  // The reply to a copy that is not started.
  function CopyReply(hw: bool, dst: nat, src: nat, len: nat): Refusal {
    if dst == 0 || src == 0 then Refused(EINVAL)
    else if !hw then Refused(ENOTSUP)
    else if len == 0 then Refused(OK)
    else if len > MAX_LEN then Refused(EINVAL)
    else None
  }

  // The transmit half and then the receive half are started, and the latter is
  // waited for.
  ghost predicate CopiedVia(hs: seq<Half>, hs1: seq<Half>, hs2: seq<Half>, hs': seq<Half>, out: nat, len: nat, e: Entry) {
    && Began(hs, hs1, out, len) && Began(hs1, hs2, 0, len) && AwaitedAs(hs2, hs', 0, len, false, e.reply)
    && |hs2| > 0 && e.start == hs2[0].starts
  }

  ghost predicate Copied(hs: seq<Half>, hs': seq<Half>, out: nat, len: nat, e: Entry) {
    exists hs1, hs2 :: CopiedVia(hs, hs1, hs2, hs', out, len, e)
  }

  // Some behaviour of hardware and notifications makes the server serve these
  // messages with these replies.
  ghost predicate Run(axi: bool, hw: bool, slots: seq<Slot>, hs: seq<Half>, log: seq<Entry>, slots': seq<Slot>,
                      hs': seq<Half>)
    decreases |log|
  {
    if log == [] then slots' == slots && hs' == hs
    else
      var front, e := log[..|log| - 1], log[|log| - 1];
      exists slots1, hs1 ::
        Run(axi, hw, slots, hs, front, slots1, hs1) && Serves(axi, hw, slots1, hs1, slots', hs', e)
  }

  class Server {
    const axi: bool
    var hw: bool
    var slots: seq<Slot>
    var halves: seq<Half>      // one for every slot, and the transmit half of copies

    predicate Shaped()
      reads this
    {
      |slots| == SlotCount(axi) && |halves| == SlotCount(axi) + 1 && Current(halves)
    }

    // The hardware takes its turn: each half may end its frame, fail or wait.
    method Tick()
      requires Shaped()
      modifies this`halves
      ensures Shaped() && Drift(old(halves), halves)
    {
      ghost var hs := halves;
      var i := 0;
      while i < |halves|
        invariant i <= |halves| == |hs| && Shaped() && Drift(hs, halves)
        invariant forall j :: i <= j < |hs| ==> halves[j] == hs[j]
      {
        var ends: bool, fails: bool, n: nat := *, *, *;
        if halves[i].running && fails {
          halves := halves[i := Failed(halves[i])];
        } else if halves[i].running && ends && n <= MAX_LEN {
          halves := halves[i := Ended(halves[i], n)];
        }
        i := i + 1;
      }
    }

    // One register or descriptor write to a half, and what the hardware does next.
    method Poke(i: nat, f: Half -> Half)
      requires Shaped() && i < |halves| && FlagIsCurrent(f(halves[i]))
      modifies this`halves
      ensures Shaped() && DriftBut(old(halves), halves, i) && Evolved(f(old(halves[i])), halves[i])
    {
      halves := halves[i := f(halves[i])];
      Tick();
    }
  
    // How every arm and copy starts a half: descriptor, reset, clear, go.
    method Begin(i: nat, len: nat)
      requires Shaped() && i < |halves|
      modifies this`halves
      ensures Shaped() && DriftBut(old(halves), halves, i)
      ensures Renewed(old(halves[i]), halves[i], len) && Began(old(halves), halves, i, len)
    {
      ghost var hs := halves;
      Tick();
      ghost var hs0 := halves;
      WritesKeepCurrent(halves[i], len);
      Poke(i, h => Described(h, len));
      ghost var hs1 := halves;
      LateWrites(hs[i], hs0[i], hs1[i], len);
      hide Described, Reset, Cleared, Started, Evolved, FlagIsCurrent, Drift;
      WritesKeepCurrent(halves[i], len);
      Poke(i, Reset);
      ghost var hs2 := halves;
      WritesKeepCurrent(halves[i], len);
      Poke(i, Cleared);
      ghost var hs3 := halves;
      BeginDrifts(hs, hs0, hs1, hs2, hs3, i);
      StillCleared(hs1[i], hs2[i], hs3[i], len);
      Poke(i, Started);
      DriftTwice(hs, hs3, halves, i);
      WritesRenew(hs[i], hs0[i], hs1[i], hs2[i], hs3[i], halves[i], len);
      assert BeganVia(hs, hs0, hs1, hs2, hs3, halves, i, len);
    }

    // A descriptor can be read back between two messages.
    predicate Ready()
      reads this
    {
      Shaped() && Legible(halves) && (axi ==> slots[0].buf == 0)
    }

    method HwChannelOpen(slot: nat, mux: nat) returns (r: Reply)
      requires Ready()
      modifies this
      ensures Ready() && Handled(axi, old(slots), old(halves), slots, halves, Open(slot, mux), r, 0)
      ensures hw == old(hw) && Serves(axi, hw, old(slots), old(halves), slots, halves, Entry(Open(slot, mux), r, 0))
    {
      KeepsAll(halves, halves);
      if slot >= SlotCount(axi) || mux > NO_PERIPH {
        return EINVAL;
      }
      if !hw {
        return ENOTSUP;
      }
      if axi && slot == 0 && mux != NO_PERIPH {
        return EINVAL;
      }
      if axi && slot != 0 && mux == NO_PERIPH {
        return EINVAL;
      }
      slots := slots[slot := slots[slot].(periph := mux, open := true)];
      r := OK;
    }

    method HwRxArm(slot: nat, dst: nat, len: nat) returns (r: Reply, ghost start: nat)
      requires Ready()
      modifies this
      ensures Ready() && Handled(axi, old(slots), old(halves), slots, halves, RxArm(slot, dst, len), r, start)
      ensures hw == old(hw)
      ensures Serves(axi, hw, old(slots), old(halves), slots, halves, Entry(RxArm(slot, dst, len), r, start))
    {
      ghost var hs, sl := halves, slots;
      KeepsAll(halves, halves);
      r, start := ArmReply(axi, hw, slots, Receives(axi, slot), slot, dst, len), 0;
      if r.OK? {
        start := ArmSlot(slot, dst, len);
        ArmIsHandled(axi, sl, hs, slots, halves, Entry(RxArm(slot, dst, len), r, start));
        hide FlagIsCurrent, Evolved, Began, Handled;
      }
    }

    method HwTxArm(slot: nat, src: nat, len: nat) returns (r: Reply, ghost start: nat)
      requires Ready() && axi
      modifies this
      ensures Ready() && Handled(axi, old(slots), old(halves), slots, halves, TxArm(slot, src, len), r, start)
      ensures hw == old(hw)
      ensures Serves(axi, hw, old(slots), old(halves), slots, halves, Entry(TxArm(slot, src, len), r, start))
    {
      ghost var hs, sl := halves, slots;
      KeepsAll(halves, halves);
      r, start := ArmReply(axi, hw, slots, Transmits(axi, slot), slot, src, len), 0;
      if r.OK? {
        start := ArmSlot(slot, src, len);
        ArmIsHandled(axi, sl, hs, slots, halves, Entry(TxArm(slot, src, len), r, start));
        hide FlagIsCurrent, Evolved, Began, Handled;
      }
    }

    method ArmSlot(slot: nat, buf: nat, len: nat) returns (ghost start: nat)
      requires Ready() && slot < SlotCount(axi) && buf != 0 && (axi ==> slot != 0)
      modifies this
      ensures Ready()
      ensures slots == old(slots)[slot := old(slots)[slot].(buf := buf, len := len)]
      ensures DriftBut(old(halves), halves, slot) && Renewed(old(halves)[slot], halves[slot], len)
      ensures start == halves[slot].starts && Began(old(halves), halves, slot, len) && hw == old(hw)
    {
      ghost var hs := halves;
      slots := slots[slot := slots[slot].(buf := buf, len := len)];
      Begin(slot, len);
      StaysLegible(hs, halves, slot, len);
      start := halves[slot].starts;
    }

    // The notification may be early, spurious or missing; the status registers
    // decide.  The status is read first, the descriptor only after the flags
    // have been cleared.
    method AwaitHalf(slot: nat, len: nat) returns (r: Reply)
      requires Ready() && slot < SlotCount(axi)
      modifies this`halves
      ensures Ready() && DriftBut(old(halves), halves, slot) && Keeps(old(halves)[slot], halves[slot])
      ensures r.EINVAL? || r.ETIMEOUT? || Finished(halves[slot], len, r)
      ensures Awaited(old(halves), halves, slot, len, r)
      ensures (!r.ETIMEOUT? ==> Spent(halves[slot])) && (Spent(old(halves)[slot]) ==> r.ETIMEOUT?)
    {
      ghost var hs := halves;
      Tick();
      var notified: bool := *;
      ghost var hs1 := halves;
      Tick();
      var eof, err := halves[slot].eof, halves[slot].err;
      ghost var hs2 := halves;
      Tick();
      ghost var hs3 := halves;
      WritesKeepCurrent(halves[slot], len);
      hide Cleared, FlagIsCurrent, Evolved;
      Poke(slot, Cleared);
      var got := halves[slot].length;
      AwaitDrifts(hs, hs1, hs2, hs3, halves, slot);
      r := if !notified then ETIMEOUT else Verdict(eof, err, got, len);
      AwaitSpends(hs, hs1, hs2, hs3, halves, slot);
      assert AwaitedVia(hs, hs1, hs2, hs3, halves, slot, len, notified, r);
    }

    method HwRxWait(slot: nat) returns (r: Reply)
      requires Ready()
      modifies this
      ensures Ready() && Handled(axi, old(slots), old(halves), slots, halves, RxWait(slot), r, 0)
      ensures hw == old(hw) && Serves(axi, hw, old(slots), old(halves), slots, halves, Entry(RxWait(slot), r, 0))
    {
      ghost var hs, sl := halves, slots;
      KeepsAll(halves, halves);
      if slot >= SlotCount(axi) {
        return EINVAL;
      }
      if axi && (slot == 0 || IsTx(axi, slot)) {
        return EINVAL;
      }
      if slots[slot].buf == 0 {
        return EINVAL;
      }
      r := AwaitHalf(slot, slots[slot].len);
      slots := slots[slot := slots[slot].(buf := 0)];
      WaitIsHandled(axi, sl, hs, slots, halves, RxWait(slot), r, r);
    }

    method HwTxWait(slot: nat) returns (r: Reply)
      requires Ready() && axi
      modifies this
      ensures Ready() && Handled(axi, old(slots), old(halves), slots, halves, TxWait(slot), r, 0)
      ensures hw == old(hw) && Serves(axi, hw, old(slots), old(halves), slots, halves, Entry(TxWait(slot), r, 0))
    {
      ghost var hs, sl := halves, slots;
      KeepsAll(halves, halves);
      if slot >= SlotCount(axi) {
        return EINVAL;
      }
      if slot == 0 || !IsTx(axi, slot) {
        return EINVAL;
      }
      if slots[slot].buf == 0 {
        return EINVAL;
      }
      r := AwaitHalf(slot, slots[slot].len);
      ghost var r0 := r;
      if r.Count? {
        r := OK;
      }
      slots := slots[slot := slots[slot].(buf := 0)];
      WaitIsHandled(axi, sl, hs, slots, halves, TxWait(slot), r0, r);
    }

    method HwMemcpy(dst: nat, src: nat, len: nat) returns (r: Reply, ghost start: nat)
      requires Ready()
      modifies this
      ensures Ready() && Handled(axi, old(slots), old(halves), slots, halves, Memcpy(dst, src, len), r, start)
      ensures slots == old(slots) && hw == old(hw)
      ensures Serves(axi, hw, old(slots), old(halves), slots, halves, Entry(Memcpy(dst, src, len), r, start))
      ensures r.OK? && len > 0 ==> start in halves[0].frames && CopyBegun(old(halves), halves, SlotCount(axi), len)
    {
      ghost var hs := halves;
      KeepsAll(halves, halves);
      start := 0;
      if dst == 0 || src == 0 {
        return EINVAL, start;
      }
      if !hw {
        return ENOTSUP, start;
      }
      if len == 0 {
        return OK, start;
      }
      if len > MAX_LEN {
        return EINVAL, start;
      }
      r, start := CopyHalves(len);
      CopyIsHandled(axi, slots, hs, halves, Entry(Memcpy(dst, src, len), r, start), len);
    }

    // A copy that has passed its checks.
    method CopyHalves(len: nat) returns (r: Reply, ghost start: nat)
      requires Ready()
      modifies this`halves
      ensures Ready() && (r.OK? || r.EINVAL? || r.ETIMEOUT?) && start == halves[0].starts
      ensures CopyBegun(old(halves), halves, SlotCount(axi), len)
      ensures (r.OK? ==> start in halves[0].frames) && (!r.ETIMEOUT? ==> Spent(halves[0]))
      ensures forall msg :: Copied(old(halves), halves, SlotCount(axi), len, Entry(msg, r, start))
    {
      ghost var hs := halves;
      ghost var mid := StartCopy(len);
      ghost var hs1 := halves;
      start := halves[0].starts;
      hide FlagIsCurrent, Evolved, Began, Awaited;
      r := AwaitHalf(0, len);
      ghost var r0 := r;
      if r.Count? {
        r := OK;
      }
      CopyEnds(hs, hs1, halves, SlotCount(axi), len);
      assert AwaitedAs(hs1, halves, 0, len, false, r) by {
        assert Awaited(hs1, halves, 0, len, r0);
      }
      forall msg ensures Copied(hs, halves, SlotCount(axi), len, Entry(msg, r, start)) {
        assert CopiedVia(hs, mid, hs1, halves, SlotCount(axi), len, Entry(msg, r, start));
      }
    }

    // The transmit half and the receive half of a copy.
    method StartCopy(len: nat) returns (ghost mid: seq<Half>)
      requires Ready()
      modifies this`halves
      ensures Ready() && CopyBegun(old(halves), halves, SlotCount(axi), len)
      ensures Began(old(halves), mid, SlotCount(axi), len) && Began(mid, halves, 0, len)
    {
      ghost var hs := halves;
      hide Began;
      Begin(SlotCount(axi), len);
      mid := halves;
      StaysLegible(hs, mid, SlotCount(axi), len);
      Begin(0, len);
      StaysLegible(mid, halves, 0, len);
      BothBegin(hs, mid, halves, SlotCount(axi), len);
    }

    // One round of the server loop.
    method Handle(msg: Message) returns (r: Reply, ghost start: nat)
      requires Ready()
      modifies this
      ensures Ready() && Handled(axi, old(slots), old(halves), slots, halves, msg, r, start)
      ensures hw == old(hw) && Serves(axi, hw, old(slots), old(halves), slots, halves, Entry(msg, r, start))
    {
      KeepsAll(halves, halves);
      hide Handled, Ready, Serves;
      start := 0;
      match msg
      case Open(slot, mux) => r := HwChannelOpen(slot, mux);
      case Memcpy(dst, src, len) => r, start := HwMemcpy(dst, src, len);
      case RxArm(slot, buf, len) => r, start := HwRxArm(slot, buf, len);
      case RxWait(slot) => r := HwRxWait(slot);
      case TxArm(slot, buf, len) => if axi { r, start := HwTxArm(slot, buf, len); } else { r := Unknown(msg); }
      case TxWait(slot) => if axi { r := HwTxWait(slot); } else { r := Unknown(msg); }
      case Other => r := Unknown(msg);
    }

    // A message the server does not know.
    method Unknown(msg: Message) returns (r: Reply)
      requires Ready() && (msg.Other? || (!axi && (msg.TxArm? || msg.TxWait?)))
      ensures r == EINVAL && Handled(axi, slots, halves, slots, halves, msg, r, 0)
      ensures Serves(axi, hw, slots, halves, slots, halves, Entry(msg, r, 0))
    {
      KeepsAll(halves, halves);
      r := EINVAL;
    }

    // Whatever the clients send, whatever the hardware does, and whenever the
    // notifications come: every wait that succeeds is justified by the arm
    // before it, or by a copy on the same slot since that has timed out.
    method Serve(msgs: seq<Message>) returns (ghost log: seq<Entry>)
      requires Ready() && forall i :: 0 <= i < |slots| ==> slots[i].buf == 0
      modifies this
      ensures |log| == |msgs| && forall k :: 0 <= k < |msgs| ==> log[k].msg == msgs[k]
      ensures forall k :: 0 <= k < |log| ==> Justified(axi, log, halves, k)
      ensures Run(axi, hw, old(slots), old(halves), log, slots, halves)
    {
      log := [];
      var n := 0;
      while n < |msgs|
        invariant 0 <= n <= |msgs| && |log| == n && Ready()
        invariant forall k :: 0 <= k < n ==> log[k].msg == msgs[k]
        invariant Tied(axi, log, slots, halves) && AllJustified(axi, log, halves)
        invariant Run(axi, hw, old(slots), old(halves), log, slots, halves)
      {
        ghost var slots0, halves0 := slots, halves;
        var r;
        ghost var start;
        hide Tied, AllJustified, Handled, Ready, Serves, Run;
        r, start := Handle(msgs[n]);
        OneMoreEntry(axi, log, slots0, halves0, slots, halves, Entry(msgs[n], r, start));
        RunGoesOn(axi, hw, old(slots), old(halves), log, slots0, halves0, slots, halves, Entry(msgs[n], r, start));
        log := log + [Entry(msgs[n], r, start)];
        n := n + 1;
      }
    }
  }

  lemma WritesKeepCurrent(h: Half, len: nat)
    requires FlagIsCurrent(h)
    ensures FlagIsCurrent(Described(h, len)) && FlagIsCurrent(Reset(h)) && FlagIsCurrent(Cleared(h))
  {
  }

  // A reset half stays stopped, so its flags stay clear until it is started.
  lemma StillCleared(h: Half, h': Half, h'': Half, len: nat)
    requires FlagIsCurrent(h) && Evolved(Reset(h), h') && Evolved(Cleared(h'), h'')
    ensures h' == Reset(h) && h'' == Cleared(h') && FlagIsCurrent(Started(h''))
  {
  }

  lemma LateWrites(h: Half, h0: Half, h1: Half, len: nat)
    requires FlagIsCurrent(h) && Evolved(h, h0) && Evolved(Described(h0, len), h1)
    ensures FlagIsCurrent(h0) && FlagIsCurrent(h1)
  {
  }

  lemma BeginDrifts(hs: seq<Half>, hs0: seq<Half>, hs1: seq<Half>, hs2: seq<Half>, hs3: seq<Half>, i: nat)
    requires Current(hs) && Drift(hs, hs0)
    requires DriftBut(hs0, hs1, i) && DriftBut(hs1, hs2, i) && DriftBut(hs2, hs3, i)
    ensures DriftBut(hs, hs3, i)
  {
    assert DriftBut(hs, hs0, i);
    hide Evolved, FlagIsCurrent, Drift, DriftBut;
    DriftTwice(hs, hs0, hs1, i);
    DriftTwice(hs, hs1, hs2, i);
    DriftTwice(hs, hs2, hs3, i);
  }

  lemma WritesRenew(h: Half, h0: Half, h1: Half, h2: Half, h3: Half, h4: Half, len: nat)
    requires FlagIsCurrent(h) && Evolved(h, h0) && Evolved(Described(h0, len), h1) && Evolved(Reset(h1), h2)
    requires Evolved(Cleared(h2), h3) && Evolved(Started(h3), h4)
    ensures Renewed(h, h4, len)
  {
  }

  // A half that was started once more, for len bytes; what it had received
  // before is still on record.
  ghost predicate Renewed(h: Half, h': Half, len: nat) {
    && h'.starts == h.starts + 1 && h'.size == len && (h'.eof ==> !h'.rewritten)
    && forall s :: s in h.frames ==> s in h'.frames && h'.frames[s] == h.frames[s]
  }

  // What is on record about a half stays on record.
  predicate Keeps(h: Half, h': Half) { h'.starts == h.starts && OnRecord(h, h') }

  // The latest start of the half has ended its frame, and the reply says so.
  predicate Finished(h: Half, len: nat, r: Reply) {
    h.starts in h.frames && r == Count(Cut(h.frames[h.starts], len))
  }

  predicate Legible(hs: seq<Half>) {
    forall i :: 0 <= i < |hs| && hs[i].eof ==> !hs[i].rewritten
  }

  // What serving one message does to the slots and halves.
  ghost predicate Handled(axi: bool, slots: seq<Slot>, hs: seq<Half>, slots': seq<Slot>, hs': seq<Half>,
                          msg: Message, r: Reply, start: nat) {
    && |slots'| == |slots| <= |hs| == |hs'|
    && (forall i :: 0 <= i < |hs| ==> OnRecord(hs[i], hs'[i]))
    && (forall i :: 0 <= i < |slots| ==> SlotHandled(axi, slots[i], hs[i], slots'[i], hs'[i], i, Entry(msg, r, start)))
    && ((msg.RxWait? || msg.TxWait?) && Succeeds(r) ==> Waits(axi, msg, msg.slot) && msg.slot < |slots|)
  }

  predicate OnRecord(h: Half, h': Half) {
    forall s :: s in h.frames ==> s in h'.frames && h'.frames[s] == h.frames[s]
  }

  ghost predicate SlotHandled(axi: bool, slot: Slot, h: Half, slot': Slot, h': Half, i: nat, e: Entry) {
    if Arms(axi, e, i) then slot'.buf != 0 && slot'.len == e.msg.len && h'.starts == e.start
    else if Waits(axi, e.msg, i) then
      slot'.buf == 0 && (Succeeds(e.reply) ==>
        slot.buf != 0 && !Spent(h) && SpeaksOf(e, h', h.starts, slot.len))
    else
      && slot'.buf == slot.buf && slot'.len == slot.len
      && if e.msg.Memcpy? && i == 0 && e.start > 0 then h'.starts == e.start && (!e.reply.ETIMEOUT? ==> Spent(h'))
         else Evolved(h, h')
  }

  lemma KeepsAll(hs: seq<Half>, hs': seq<Half>)
    requires Drift(hs, hs') && Current(hs)
    ensures forall i :: 0 <= i < |hs| ==> OnRecord(hs[i], hs'[i]) && hs'[i].starts == hs[i].starts
  {
  }

  lemma StaysLegible(hs: seq<Half>, hs': seq<Half>, slot: nat, len: nat)
    requires Legible(hs) && slot < |hs| && DriftBut(hs, hs', slot) && Renewed(hs[slot], hs'[slot], len)
    ensures Legible(hs')
  {
  }

  lemma AwaitDrifts(hs: seq<Half>, hs1: seq<Half>, hs2: seq<Half>, hs3: seq<Half>, hs4: seq<Half>, slot: nat)
    requires Current(hs) && Legible(hs) && slot < |hs|
    requires Drift(hs, hs1) && Drift(hs1, hs2) && Drift(hs2, hs3) && DriftBut(hs3, hs4, slot)
    requires Evolved(Cleared(hs3[slot]), hs4[slot]) && Current(hs4)
    ensures DriftBut(hs, hs4, slot) && Keeps(hs[slot], hs4[slot]) && Legible(hs4)
    ensures hs2[slot].eof ==> hs4[slot].starts in hs4[slot].frames
                              && hs4[slot].frames[hs4[slot].starts] == hs4[slot].length
  {
    DriftTwice(hs, hs1, hs2, slot);
    DriftTwice(hs, hs2, hs3, slot);
    DriftTwice(hs, hs3, hs4, slot);
  }

  // A wait on an armed slot: what it does to the slots, and how it is served.
  lemma WaitIsHandled(axi: bool, slots: seq<Slot>, hs: seq<Half>, slots': seq<Slot>, hs': seq<Half>, msg: Message,
                      r0: Reply, r: Reply)
    requires (msg.RxWait? || msg.TxWait?) && Waits(axi, msg, msg.slot) && |slots| == SlotCount(axi) < |hs| == |hs'|
    requires msg.slot < |slots| && slots[msg.slot].buf != 0 && Current(hs)
    requires slots' == slots[msg.slot := slots[msg.slot].(buf := 0)]
    requires DriftBut(hs, hs', msg.slot) && Keeps(hs[msg.slot], hs'[msg.slot])
    requires r0.EINVAL? || r0.ETIMEOUT? || Finished(hs'[msg.slot], slots[msg.slot].len, r0)
    requires Awaited(hs, hs', msg.slot, slots[msg.slot].len, r0) && (Spent(hs[msg.slot]) ==> r0.ETIMEOUT?)
    requires r == if r0.Count? && msg.TxWait? then OK else r0
    ensures Handled(axi, slots, hs, slots', hs', msg, r, 0)
    ensures forall hw :: Serves(axi, hw, slots, hs, slots', hs', Entry(msg, r, 0))
  {
    DriftKeepsOthers(hs, hs', msg.slot);
    assert AwaitedAs(hs, hs', msg.slot, slots[msg.slot].len, msg.RxWait?, r);
    hide Awaited, AwaitedAs, Evolved, FlagIsCurrent;
  }

  lemma AwaitSpends(hs: seq<Half>, hs1: seq<Half>, hs2: seq<Half>, hs3: seq<Half>, hs4: seq<Half>, slot: nat)
    requires slot < |hs| && (hs[slot].running ==> !hs[slot].eof && !hs[slot].err)
    requires Drift(hs, hs1) && Drift(hs1, hs2) && Drift(hs2, hs3) && DriftBut(hs3, hs4, slot)
    requires Evolved(Cleared(hs3[slot]), hs4[slot])
    ensures hs2[slot].eof || hs2[slot].err ==> Spent(hs4[slot])
    ensures Spent(hs[slot]) ==> !hs2[slot].eof && !hs2[slot].err
  {
    assert Evolved(hs[slot], hs1[slot]) && Evolved(hs1[slot], hs2[slot]) && Evolved(hs2[slot], hs3[slot]);
  }

  // A half that only drifts keeps its start and its records.
  lemma DriftKeepsOthers(hs: seq<Half>, hs': seq<Half>, slot: nat)
    requires Current(hs) && DriftBut(hs, hs', slot)
    ensures forall i :: 0 <= i < |hs| && i != slot ==> Keeps(hs[i], hs'[i])
  {
  }

  // Halves 0 and `out` were started once more, for len bytes; the others not.
  ghost predicate CopyBegun(hs: seq<Half>, hs': seq<Half>, out: nat, len: nat) {
    && 0 < out < |hs| == |hs'|
    && (forall i :: 0 <= i < |hs| ==> OnRecord(hs[i], hs'[i]))
    && (forall i :: 0 < i < |hs| && i != out ==> Evolved(hs[i], hs'[i]))
    && hs'[0].starts == hs[0].starts + 1 && hs'[out].starts == hs[out].starts + 1
    && hs'[out].size == len
  }

  lemma BothBegin(hs: seq<Half>, hs1: seq<Half>, hs2: seq<Half>, out: nat, len: nat)
    requires 0 < out < |hs| && Current(hs) && Current(hs1)
    requires DriftBut(hs, hs1, out) && Renewed(hs[out], hs1[out], len)
    requires DriftBut(hs1, hs2, 0) && Renewed(hs1[0], hs2[0], len)
    ensures CopyBegun(hs, hs2, out, len)
  {
    DriftKeepsOthers(hs, hs1, out);
    DriftKeepsOthers(hs1, hs2, 0);
    assert hs2[out].size == hs1[out].size;
    forall i | 0 < i < |hs| && i != out ensures Evolved(hs[i], hs2[i]) {
      EvolvedKeeps(hs[i], hs1[i], hs2[i]);
    }
    hide Evolved, FlagIsCurrent;
  }

  lemma CopyEnds(hs: seq<Half>, hs1: seq<Half>, hs2: seq<Half>, out: nat, len: nat)
    requires CopyBegun(hs, hs1, out, len) && Current(hs) && Current(hs1)
    requires DriftBut(hs1, hs2, 0) && Keeps(hs1[0], hs2[0])
    ensures CopyBegun(hs, hs2, out, len)
  {
    DriftKeepsOthers(hs1, hs2, 0);
    forall i | 0 < i < |hs| && i != out ensures Evolved(hs[i], hs2[i]) {
      EvolvedKeeps(hs[i], hs1[i], hs2[i]);
    }
    EvolvedKeeps(hs1[out], hs1[out], hs2[out]);
    hide Evolved, FlagIsCurrent;
  }

  lemma CopyIsHandled(axi: bool, slots: seq<Slot>, hs: seq<Half>, hs': seq<Half>, e: Entry, len: nat)
    requires |slots| == SlotCount(axi) && CopyBegun(hs, hs', SlotCount(axi), len) && e.msg.Memcpy?
    requires e.start == hs'[0].starts && (!e.reply.ETIMEOUT? ==> Spent(hs'[0]))
    ensures Handled(axi, slots, hs, slots, hs', e.msg, e.reply, e.start)
  {
    hide Evolved;
  }

  lemma ArmIsHandled(axi: bool, slots: seq<Slot>, hs: seq<Half>, slots': seq<Slot>, hs': seq<Half>, e: Entry)
    requires e.msg.RxArm? || e.msg.TxArm?
    requires e.reply.OK? && |slots| == SlotCount(axi) && |hs| == SlotCount(axi) + 1 && Current(hs)
    requires e.msg.slot < |slots| && Arms(axi, e, e.msg.slot) && e.msg.buf != 0
    requires slots' == slots[e.msg.slot := slots[e.msg.slot].(buf := e.msg.buf, len := e.msg.len)]
    requires DriftBut(hs, hs', e.msg.slot) && Renewed(hs[e.msg.slot], hs'[e.msg.slot], e.msg.len)
    requires e.start == hs'[e.msg.slot].starts
    ensures Handled(axi, slots, hs, slots', hs', e.msg, e.reply, e.start)
  {
    DriftKeepsOthers(hs, hs', e.msg.slot);
    hide Evolved, FlagIsCurrent;
  }

  ghost predicate AllJustified(axi: bool, log: seq<Entry>, halves: seq<Half>) {
    forall k :: 0 <= k < |log| ==> Justified(axi, log, halves, k)
  }

  // An armed slot knows the start and the length of its arm.
  ghost predicate Tied(axi: bool, log: seq<Entry>, slots: seq<Slot>, halves: seq<Half>) {
    && |slots| <= |halves|
    && (forall i :: 0 <= i < |slots| ==> TiedSlot(axi, log, slots[i], halves[i], i))
    && (axi && |slots| > 0 ==> slots[0].buf == 0)
  }

  predicate TiedSlot(axi: bool, log: seq<Entry>, slot: Slot, h: Half, i: nat) {
    slot.buf != 0 ==>
      match ArmOf(axi, log, i)
      case Unarmed => false
      case Some(arm) => arm.start == h.starts && arm.msg.len == slot.len
      case Overridden(arm, copy) =>
        copy.start == h.starts && arm.msg.len == slot.len && (!copy.reply.ETIMEOUT? ==> Spent(h))
  }

  lemma OneMoreEntry(axi: bool, log: seq<Entry>, slots: seq<Slot>, hs: seq<Half>, slots': seq<Slot>, hs': seq<Half>,
                     e: Entry)
    requires Tied(axi, log, slots, hs) && AllJustified(axi, log, hs)
    requires Handled(axi, slots, hs, slots', hs', e.msg, e.reply, e.start)
    requires |slots| == SlotCount(axi) && (axi ==> slots'[0].buf == 0)
    ensures Tied(axi, log + [e], slots', hs') && AllJustified(axi, log + [e], hs')
  {
    var all := log + [e];
    assert all[..|all| - 1] == log;
    forall i | 0 <= i < |slots'| ensures TiedSlot(axi, all, slots'[i], hs'[i], i) {
      assert SlotHandled(axi, slots[i], hs[i], slots'[i], hs'[i], i, e);
      assert TiedSlot(axi, log, slots[i], hs[i], i);
    }
    forall k | 0 <= k < |all| ensures Justified(axi, all, hs', k) {
      if k < |log| {
        assert all[..k] == log[..k];
        StaysJustified(axi, log, hs, all, hs', k);
      } else {
        NewIsJustified(axi, log, slots, hs, slots', hs', e);
      }
    }
  }

  lemma StaysJustified(axi: bool, log: seq<Entry>, hs: seq<Half>, all: seq<Entry>, hs': seq<Half>, k: nat)
    requires k < |log| <= |all| && all[k] == log[k] && all[..k] == log[..k] && Justified(axi, log, hs, k)
    requires |hs'| == |hs| && forall i :: 0 <= i < |hs| ==> OnRecord(hs[i], hs'[i])
    ensures Justified(axi, all, hs', k)
  {
    hide ArmOf;
  }

  lemma NewIsJustified(axi: bool, log: seq<Entry>, slots: seq<Slot>, hs: seq<Half>, slots': seq<Slot>, hs': seq<Half>,
                       e: Entry)
    requires Tied(axi, log, slots, hs)
    requires Handled(axi, slots, hs, slots', hs', e.msg, e.reply, e.start)
    ensures Justified(axi, log + [e], hs', |log|)
  {
    var all := log + [e];
    assert all[..|log|] == log;
    hide ArmOf;
    if (e.msg.RxWait? || e.msg.TxWait?) && Succeeds(e.reply) {
      var i := e.msg.slot;
      assert SlotHandled(axi, slots[i], hs[i], slots'[i], hs'[i], i, e);
      assert TiedSlot(axi, log, slots[i], hs[i], i);
    }
  }

  lemma RunGoesOn(axi: bool, hw: bool, slots: seq<Slot>, hs: seq<Half>, log: seq<Entry>, slots1: seq<Slot>,
                  hs1: seq<Half>, slots2: seq<Slot>, hs2: seq<Half>, e: Entry)
    requires Run(axi, hw, slots, hs, log, slots1, hs1) && Serves(axi, hw, slots1, hs1, slots2, hs2, e)
    ensures Run(axi, hw, slots, hs, log + [e], slots2, hs2)
  {
    var all := log + [e];
    assert all[..|all| - 1] == log;
  }

  // On the AXI server, and on slot 1 of the AHB server, no copy ever gets in
  // between.
  lemma {:induction false} OnlySharedSlotIsOverridden(axi: bool, log: seq<Entry>, slot: nat)
    requires axi || slot != 0
    ensures !ArmOf(axi, log, slot).Overridden?
  {
    if log != [] {
      OnlySharedSlotIsOverridden(axi, log[..|log| - 1], slot);
    }
  }

  // ------------------------------------------------------ the shared slot

  // On the AHB server: a copy that is started on the armed slot 0 and gets this
  // reply, followed by a wait that returns a count.
  ghost predicate CopyThenCount(slots: seq<Slot>, hs: seq<Half>, dst: nat, src: nat, len: nat, r: Reply) {
    exists start, n, slots', hs' :: Run(false, true, slots, hs, CopyAndWait(dst, src, len, r, start, n), slots', hs')
  }

  function CopyAndWait(dst: nat, src: nat, len: nat, r: Reply, start: nat, n: nat): seq<Entry> {
    [Entry(Memcpy(dst, src, len), r, start), Entry(RxWait(0), Count(n), 0)]
  }

  // After a copy on the armed slot the wait can return a count if and only if
  // the copy was answered with a time-out.
  lemma CopyPassesExactly(slots: seq<Slot>, hs: seq<Half>, dst: nat, src: nat, len: nat, r: Reply)
    requires |slots| == 2 && |hs| == 3 && slots[0].buf != 0
    requires dst != 0 && src != 0 && 0 < len <= MAX_LEN
    ensures CopyThenCount(slots, hs, dst, src, len, r) <==> r.ETIMEOUT?
  {
    hide Run, Serves;
    if r.ETIMEOUT? {
      var slots', hs' := TimedOutCopyCounts(slots, hs, dst, src, len);
      assert Run(false, true, slots, hs, CopyAndWait(dst, src, len, r, hs[0].starts + 1, Cut(len, slots[0].len)), slots', hs');
    }
    if CopyThenCount(slots, hs, dst, src, len, r) {
      var start, n, slots', hs' :|
        Run(false, true, slots, hs, CopyAndWait(dst, src, len, r, start, n), slots', hs');
      CountNeedsTimeout(slots, hs, dst, src, len, r, start, n, slots', hs');
    }
  }

  lemma BeganClears(hs: seq<Half>, hs': seq<Half>, i: nat, len: nat)
    requires Began(hs, hs', i, len)
    ensures i < |hs'| == |hs| && (hs'[i].running ==> !hs'[i].eof && !hs'[i].err)
  {
    var hs0, hs1, hs2, hs3 :| BeganVia(hs, hs0, hs1, hs2, hs3, hs', i, len);
    assert hs2[i] == Reset(hs1[i]) && hs3[i] == Cleared(hs2[i]);
  }

  lemma AwaitedSpends(hs: seq<Half>, hs': seq<Half>, i: nat, len: nat, r: Reply)
    requires Awaited(hs, hs', i, len, r)
    ensures i < |hs| == |hs'|
    ensures (hs[i].running ==> !hs[i].eof && !hs[i].err) && !r.ETIMEOUT? ==> Spent(hs'[i])
    ensures Spent(hs[i]) ==> r.ETIMEOUT?
  {
    var hs1, hs2, hs3, notified :| AwaitedVia(hs, hs1, hs2, hs3, hs', i, len, notified, r);
    if hs[i].running ==> !hs[i].eof && !hs[i].err {
      AwaitSpends(hs, hs1, hs2, hs3, hs', i);
    }
  }

  lemma CountNeedsTimeout(slots: seq<Slot>, hs: seq<Half>, dst: nat, src: nat, len: nat, r: Reply, start: nat, n: nat,
                          slots': seq<Slot>, hs': seq<Half>)
    requires |slots| == 2 && |hs| == 3 && slots[0].buf != 0
    requires dst != 0 && src != 0 && 0 < len <= MAX_LEN
    requires Run(false, true, slots, hs, CopyAndWait(dst, src, len, r, start, n), slots', hs')
    ensures r.ETIMEOUT?
  {
    var log := CopyAndWait(dst, src, len, r, start, n);
    assert log[..1] == [log[0]] && log[..1][..0] == [];
    var slots1, hs1 :| Run(false, true, slots, hs, log[..1], slots1, hs1)
      && Serves(false, true, slots1, hs1, slots', hs', log[1]);
    assert Serves(false, true, slots, hs, slots1, hs1, log[0]) by {
      var slots0, hs0 :| Run(false, true, slots, hs, log[..1][..0], slots0, hs0)
        && Serves(false, true, slots0, hs0, slots1, hs1, log[..1][0]);
    }
    hide Run;
    assert slots1 == slots;
    CopySpends(hs, hs1, len, log[0]);
    WaitFailsOnSpent(slots, hs1, slots', hs', n);
  }

  lemma CopySpends(hs: seq<Half>, hs': seq<Half>, len: nat, e: Entry)
    requires Copied(hs, hs', 2, len, e)
    ensures |hs'| > 0 && (!e.reply.ETIMEOUT? ==> Spent(hs'[0]))
  {
    var hs1, hs2 :| CopiedVia(hs, hs1, hs2, hs', 2, len, e);
    BeganClears(hs1, hs2, 0, len);
    var r0 :| Awaited(hs2, hs', 0, len, r0) && e.reply == if r0.Count? then OK else r0;
    AwaitedSpends(hs2, hs', 0, len, r0);
  }

  lemma WaitFailsOnSpent(slots: seq<Slot>, hs: seq<Half>, slots': seq<Slot>, hs': seq<Half>, n: nat)
    requires |slots| == 2 && |hs| > 0 && slots[0].buf != 0
    requires Serves(false, true, slots, hs, slots', hs', Entry(RxWait(0), Count(n), 0))
    ensures !Spent(hs[0])
  {
    var r0 :| Awaited(hs, hs', 0, slots[0].len, r0) && Count(n) == r0;
    AwaitedSpends(hs, hs', 0, slots[0].len, r0);
  }

  // ------------------------------------------------- what a copy is answered

  // The frame of the latest start has ended.
  predicate HasEnded(h: Half) { h.starts in h.frames }

  // As a start leaves a half: the flag is up exactly if its frame has ended.
  predicate Telling(h: Half) { FlagIsCurrent(h) && (h.eof <==> HasEnded(h)) && (h.eof ==> !h.err) }

  lemma TellingDrifts(h: Half, h': Half)
    requires Telling(h) && Evolved(h, h')
    ensures Telling(h') && h'.starts == h.starts
  {
  }

  lemma StartIsTelling(h0: Half, h1: Half, h2: Half, h3: Half, h4: Half, len: nat)
    requires FlagIsCurrent(h0) && Evolved(Described(h0, len), h1) && Evolved(Reset(h1), h2)
    requires Evolved(Cleared(h2), h3) && Evolved(Started(h3), h4)
    ensures Telling(h4) && h4.starts == h0.starts + 1
  {
  }

  lemma BeganTells(hs: seq<Half>, hs': seq<Half>, i: nat, len: nat)
    requires Current(hs) && Began(hs, hs', i, len)
    ensures i < |hs| == |hs'| && Telling(hs'[i]) && hs'[i].starts == hs[i].starts + 1
    ensures DriftBut(hs, hs', i) && Current(hs')
    ensures forall j :: 0 <= j < |hs| && j != i ==> hs'[j].starts == hs[j].starts
  {
    var hs0: seq<Half>, hs1: seq<Half>, hs2: seq<Half>, hs3: seq<Half> :| BeganVia(hs, hs0, hs1, hs2, hs3, hs', i, len);
    assert Evolved(hs[i], hs0[i]) && hs0[i].starts == hs[i].starts && FlagIsCurrent(hs0[i]);
    StartIsTelling(hs0[i], hs1[i], hs2[i], hs3[i], hs'[i], len);
    hide Began, Telling;
    DriftTwice(hs, hs0, hs1, i);
    DriftTwice(hs, hs1, hs2, i);
    DriftTwice(hs, hs2, hs3, i);
    DriftTwice(hs, hs3, hs', i);
    forall j | 0 <= j < |hs'| ensures FlagIsCurrent(hs'[j]) {
      if j == i {
        assert Telling(hs'[i]) by { assert FlagIsCurrent(hs0[i]); StartIsTelling(hs0[i], hs1[i], hs2[i], hs3[i], hs'[i], len); }
      } else {
        EvolvedKeeps(hs[j], hs'[j], hs'[j]);
      }
    }
  }

  // A wait for a half that was started and not looked at since is answered with
  // a count exactly if it was notified and the frame had ended when the status
  // was read, with an error exactly if it was notified and the half had failed.
  lemma AwaitTellsExactly(hs: seq<Half>, hs1: seq<Half>, hs2: seq<Half>, hs3: seq<Half>, hs': seq<Half>, i: nat,
                          len: nat, notified: bool, r: Reply)
    requires AwaitedVia(hs, hs1, hs2, hs3, hs', i, len, notified, r) && Telling(hs[i])
    ensures |hs2| == |hs| && hs2[i].starts == hs[i].starts
    ensures r.Count? <==> notified && HasEnded(hs2[i])
    ensures r.EINVAL? <==> notified && hs2[i].err
    ensures r.Count? || r.EINVAL? || r.ETIMEOUT?
  {
    TellingDrifts(hs[i], hs1[i]);
    TellingDrifts(hs1[i], hs2[i]);
  }

  // A copy in its accesses: the state left by its two starts, the state in which
  // the status was read, and whether the wait was notified.
  ghost predicate CopiedSo(hs: seq<Half>, begun: seq<Half>, read: seq<Half>, notified: bool, hs': seq<Half>, out: nat,
                           len: nat, e: Entry) {
    exists hs1: seq<Half>, a: seq<Half>, b: seq<Half>, r0: Reply ::
      && Began(hs, hs1, out, len) && Began(hs1, begun, 0, len) && AwaitedVia(begun, a, read, b, hs', 0, len, notified, r0)
      && e.reply == if r0.Count? then OK else r0
  }

  // A copy is answered OK exactly if it was notified and its own frame had ended
  // when the status was read; it is answered EINVAL exactly if it was notified
  // and had failed; otherwise with a time-out.
  lemma CopyAnsweredExactly(hs: seq<Half>, begun: seq<Half>, read: seq<Half>, notified: bool, hs': seq<Half>, out: nat,
                            len: nat, e: Entry)
    requires Current(hs) && out > 0 && CopiedSo(hs, begun, read, notified, hs', out, len, e)
    ensures |read| > 0 && |hs| > 0 && read[0].starts == hs[0].starts + 1
    ensures e.reply.OK? <==> notified && HasEnded(read[0])
    ensures e.reply.EINVAL? <==> notified && read[0].err
    ensures e.reply.OK? || e.reply.EINVAL? || e.reply.ETIMEOUT?
  {
    var hs1: seq<Half>, a: seq<Half>, b: seq<Half>, r0: Reply :|
      && Began(hs, hs1, out, len) && Began(hs1, begun, 0, len) && AwaitedVia(begun, a, read, b, hs', 0, len, notified, r0)
      && e.reply == if r0.Count? then OK else r0;
    hide Began, AwaitedVia, Telling, HasEnded, Current, DriftBut;
    BeganTells(hs, hs1, out, len);
    BeganTells(hs1, begun, 0, len);
    AwaitTellsExactly(begun, a, read, b, hs', 0, len, notified, r0);
  }

  // Every copy the server makes is one of these.
  lemma CopiesAreSuch(hs: seq<Half>, hs': seq<Half>, out: nat, len: nat, e: Entry)
    ensures Copied(hs, hs', out, len, e) ==> exists begun: seq<Half>, read: seq<Half>, notified: bool :: CopiedSo(hs, begun, read, notified, hs', out, len, e)
  {
    if Copied(hs, hs', out, len, e) {
      var hs1, begun :| CopiedVia(hs, hs1, begun, hs', out, len, e);
      var r0 :| Awaited(begun, hs', 0, len, r0) && e.reply == if r0.Count? then OK else r0;
      var a, read, b, notified :| AwaitedVia(begun, a, read, b, hs', 0, len, notified, r0);
      hide Began, AwaitedVia;
      assert CopiedSo(hs, begun, read, notified, hs', out, len, e);
    }
  }

  ghost predicate CopyMayBe(axi: bool, slots: seq<Slot>, hs: seq<Half>, dst: nat, src: nat, len: nat, r: Reply) {
    exists start, hs' :: Serves(axi, true, slots, hs, slots, hs', Entry(Memcpy(dst, src, len), r, start))
  }

  // A copy within the limits can get each of these answers, and no other.
  lemma CopyMayBeExactly(axi: bool, slots: seq<Slot>, hs: seq<Half>, dst: nat, src: nat, len: nat, r: Reply)
    requires |hs| == SlotCount(axi) + 1 && Current(hs) && dst != 0 && src != 0 && 0 < len <= MAX_LEN
    ensures CopyMayBe(axi, slots, hs, dst, src, len, r) <==> r.OK? || r.EINVAL? || r.ETIMEOUT?
  {
    var out := SlotCount(axi);
    if r.OK? || r.EINVAL? || r.ETIMEOUT? {
      CopyCanBe(axi, slots, hs, dst, src, len, r);
    }
    if CopyMayBe(axi, slots, hs, dst, src, len, r) {
      var start, hs' :| Serves(axi, true, slots, hs, slots, hs', Entry(Memcpy(dst, src, len), r, start));
      var e := Entry(Memcpy(dst, src, len), r, start);
      hide Copied;
      assert Copied(hs, hs', out, len, e);
      hide Serves;
      CopiesAreSuch(hs, hs', out, len, e);
      var begun, read, notified :| CopiedSo(hs, begun, read, notified, hs', out, len, e);
      CopyAnsweredExactly(hs, begun, read, notified, hs', out, len, e);
    }
  }

  lemma CopyCanBe(axi: bool, slots: seq<Slot>, hs: seq<Half>, dst: nat, src: nat, len: nat, r: Reply)
    requires |hs| == SlotCount(axi) + 1 && dst != 0 && src != 0 && 0 < len <= MAX_LEN
    requires r.OK? || r.EINVAL? || r.ETIMEOUT?
    ensures CopyMayBe(axi, slots, hs, dst, src, len, r)
  {
    var hs', e := CopyCanEnd(hs, SlotCount(axi), len, Memcpy(dst, src, len), r);
    hide Copied;
    assert Serves(axi, true, slots, hs, slots, hs', e);
  }

  lemma CopyCanEnd(hs: seq<Half>, out: nat, len: nat, msg: Message, r: Reply) returns (hs': seq<Half>, e: Entry)
    requires 0 < out < |hs| && len <= MAX_LEN && (r.OK? || r.EINVAL? || r.ETIMEOUT?)
    ensures e.msg == msg && e.reply == r && Copied(hs, hs', out, len, e)
  {
    var hs1 := hs[out := Fresh(hs[out], len)];
    var hs2 := hs1[0 := Fresh(hs1[0], len)];
    BeginsQuietly(hs, out, len);
    BeginsQuietly(hs1, 0, len);
    hs' := AwaitCanBe(hs2, len, r);
    hide Began, AwaitedAs, Fresh;
    e := Entry(msg, r, hs2[0].starts);
    assert CopiedVia(hs, hs1, hs2, hs', out, len, e);
  }

  lemma AwaitCanBe(hs: seq<Half>, len: nat, r: Reply) returns (hs': seq<Half>)
    requires |hs| > 0 && hs[0].running && !hs[0].eof && !hs[0].err && len <= MAX_LEN
    requires r.OK? || r.EINVAL? || r.ETIMEOUT?
    ensures AwaitedAs(hs, hs', 0, len, false, r)
  {
    var h := if r.OK? then Ended(hs[0], len) else if r.EINVAL? then Failed(hs[0]) else hs[0];
    var seen := hs[0 := h];
    var r0 := if r.OK? then Count(Cut(len, len)) else r;
    hs' := seen[0 := Cleared(h)];
    assert Evolved(hs[0], h);
    assert AwaitedVia(hs, seen, seen, seen, hs', 0, len, true, r0);
    hide AwaitedVia;
    assert Awaited(hs, hs', 0, len, r0);
  }

  // The hardware holds still while a half is started.
  lemma BeginsQuietly(hs: seq<Half>, i: nat, len: nat)
    requires i < |hs|
    ensures Began(hs, hs[i := Fresh(hs[i], len)], i, len)
  {
    var h1 := Described(hs[i], len);
    var h2 := Reset(h1);
    var h3 := Cleared(h2);
    assert BeganVia(hs, hs, hs[i := h1], hs[i := h2], hs[i := h3], hs[i := Started(h3)], i, len);
  }

  // A notification that is early: nothing has happened yet.
  lemma AwaitsTooEarly(hs: seq<Half>, i: nat, len: nat)
    requires i < |hs| && !hs[i].eof && !hs[i].err
    ensures Awaited(hs, hs[i := Cleared(hs[i])], i, len, ETIMEOUT)
  {
    assert AwaitedVia(hs, hs, hs, hs, hs[i := Cleared(hs[i])], i, len, true, ETIMEOUT);
  }

  // The frame ends while it is waited for.
  lemma AwaitsEnd(hs: seq<Half>, i: nat, len: nat, n: nat)
    requires i < |hs| && hs[i].running && !hs[i].err && n <= MAX_LEN
    ensures Awaited(hs, hs[i := Cleared(Ended(hs[i], n))], i, len, Count(Cut(n, len)))
  {
    var ended := hs[i := Ended(hs[i], n)];
    assert Evolved(hs[i], ended[i]);
    assert AwaitedVia(hs, ended, ended, ended, hs[i := Cleared(Ended(hs[i], n))], i, len, true, Count(Cut(n, len)));
  }

  // A copy that is notified too early, and ends during the wait.
  lemma TimedOutCopyCounts(slots: seq<Slot>, hs: seq<Half>, dst: nat, src: nat, len: nat)
    returns (slots': seq<Slot>, hs': seq<Half>)
    requires |slots| == 2 && |hs| == 3 && slots[0].buf != 0
    requires dst != 0 && src != 0 && 0 < len <= MAX_LEN
    ensures Run(false, true, slots, hs, CopyAndWait(dst, src, len, ETIMEOUT, hs[0].starts + 1, Cut(len, slots[0].len)),
                slots', hs')
    ensures |hs'| == 3 && hs'[0].frames == hs[0].frames[hs[0].starts + 1 := len]
  {
    var e1 := Entry(Memcpy(dst, src, len), ETIMEOUT, hs[0].starts + 1);
    var e2 := Entry(RxWait(0), Count(Cut(len, slots[0].len)), 0);
    hide Serves, Run;
    var hs1 := CopyTimesOut(slots, hs, dst, src, len);
    assert hs1[0].running && !hs1[0].err && hs1[0].frames == hs[0].frames && hs1[0].starts == hs[0].starts + 1;
    slots', hs' := WaitCounts(slots, hs1, len);
    RunOfTwo(slots, hs, e1, slots, hs1, e2, slots', hs');
  }

  lemma WaitCounts(slots: seq<Slot>, hs: seq<Half>, n: nat) returns (slots': seq<Slot>, hs': seq<Half>)
    requires |slots| == 2 && |hs| == 3 && slots[0].buf != 0 && hs[0].running && !hs[0].err && n <= MAX_LEN
    ensures Serves(false, true, slots, hs, slots', hs', Entry(RxWait(0), Count(Cut(n, slots[0].len)), 0))
    ensures |hs'| == 3 && hs'[0].frames == hs[0].frames[hs[0].starts := n]
  {
    hs' := hs[0 := Cleared(Ended(hs[0], n))];
    slots' := slots[0 := slots[0].(buf := 0)];
    AwaitsEnd(hs, 0, slots[0].len, n);
    hide Awaited;
    assert AwaitedAs(hs, hs', 0, slots[0].len, true, Count(Cut(n, slots[0].len)));
  }

  lemma RunOfTwo(slots: seq<Slot>, hs: seq<Half>, e1: Entry, slots1: seq<Slot>, hs1: seq<Half>, e2: Entry,
                 slots2: seq<Slot>, hs2: seq<Half>)
    requires Serves(false, true, slots, hs, slots1, hs1, e1) && Serves(false, true, slots1, hs1, slots2, hs2, e2)
    ensures Run(false, true, slots, hs, [e1, e2], slots2, hs2)
  {
    hide Serves;
    assert Run(false, true, slots, hs, [], slots, hs);
    RunGoesOn(false, true, slots, hs, [], slots, hs, slots1, hs1, e1);
    RunGoesOn(false, true, slots, hs, [] + [e1], slots1, hs1, slots2, hs2, e2);
    assert [] + [e1] + [e2] == [e1, e2];
  }

  lemma CopyTimesOut(slots: seq<Slot>, hs: seq<Half>, dst: nat, src: nat, len: nat) returns (hs': seq<Half>)
    requires |slots| == 2 && |hs| == 3 && dst != 0 && src != 0 && 0 < len <= MAX_LEN
    ensures Serves(false, true, slots, hs, slots, hs', Entry(Memcpy(dst, src, len), ETIMEOUT, hs[0].starts + 1))
    ensures |hs'| == 3 && hs'[0] == Cleared(Fresh(hs[0], len))
  {
    var e := Entry(Memcpy(dst, src, len), ETIMEOUT, hs[0].starts + 1);
    var hs1 := hs[2 := Fresh(hs[2], len)];
    var hs2 := hs1[0 := Fresh(hs[0], len)];
    hs' := hs2[0 := Cleared(hs2[0])];
    BeginsQuietly(hs, 2, len);
    BeginsQuietly(hs1, 0, len);
    AwaitsTooEarly(hs2, 0, len);
    hide Began, Awaited;
    assert AwaitedAs(hs2, hs', 0, len, false, ETIMEOUT);
    assert CopiedVia(hs, hs1, hs2, hs', 2, len, e);
  }

  function PowerUpSlots(): seq<Slot> { [Slot(false, NO_PERIPH, 0, 0), Slot(false, NO_PERIPH, 0, 0)] }

  function PowerUpHalves(): seq<Half> {
    var h := Half(false, false, false, 0, 0, false, 0, 0, map[]);
    [h, h, h]
  }

  // A whole transcript from power-up: the slot is opened and armed, a copy times
  // out, and the wait returns the copy's length.  The start of the arm, the
  // first one, never ended a frame.
  lemma CopyPassesForFrame(mux: nat, buf: nat, len: nat, dst: nat, src: nat, copied: nat)
    requires mux < NO_PERIPH && buf != 0 && 0 < len <= MAX_LEN && dst != 0 && src != 0 && 0 < copied <= MAX_LEN
    ensures exists slots': seq<Slot>, hs': seq<Half> ::
      Run(false, true, PowerUpSlots(), PowerUpHalves(), PassingTranscript(mux, buf, len, dst, src, copied), slots', hs')
      && |hs'| == 3 && 1 !in hs'[0].frames
  {
    hide Run, Serves;
    var s2, h2 := ArmsFromPowerUp(mux, buf, len);
    var s3, h3 := TimedOutCopyCounts(s2, h2, dst, src, copied);
    var a := [Entry(Open(0, mux), OK, 0), Entry(RxArm(0, buf, len), OK, 1)];
    var b := CopyAndWait(dst, src, copied, ETIMEOUT, 2, Cut(copied, len));
    RunsJoin(false, true, PowerUpSlots(), PowerUpHalves(), a, s2, h2, b, s3, h3);
    assert a + b == PassingTranscript(mux, buf, len, dst, src, copied);
    assert Run(false, true, PowerUpSlots(), PowerUpHalves(), PassingTranscript(mux, buf, len, dst, src, copied), s3, h3);
  }

  lemma ArmsFromPowerUp(mux: nat, buf: nat, len: nat) returns (slots: seq<Slot>, hs: seq<Half>)
    requires mux < NO_PERIPH && buf != 0 && 0 < len <= MAX_LEN
    ensures Run(false, true, PowerUpSlots(), PowerUpHalves(),
                [Entry(Open(0, mux), OK, 0), Entry(RxArm(0, buf, len), OK, 1)], slots, hs)
    ensures |slots| == 2 && |hs| == 3 && slots[0].buf != 0 && slots[0].len == len
    ensures hs[0].starts == 1 && hs[0].frames == map[]
  {
    var s0, h0 := PowerUpSlots(), PowerUpHalves();
    var s1 := s0[0 := s0[0].(open := true, periph := mux)];
    slots := s1[0 := s1[0].(buf := buf, len := len)];
    hs := h0[0 := Fresh(h0[0], len)];
    BeginsQuietly(h0, 0, len);
    hide Began, Run;
    RunOfTwo(s0, h0, Entry(Open(0, mux), OK, 0), s1, h0, Entry(RxArm(0, buf, len), OK, 1), slots, hs);
  }

  function PassingTranscript(mux: nat, buf: nat, len: nat, dst: nat, src: nat, copied: nat): seq<Entry> {
    [Entry(Open(0, mux), OK, 0), Entry(RxArm(0, buf, len), OK, 1),
     Entry(Memcpy(dst, src, copied), ETIMEOUT, 2), Entry(RxWait(0), Count(Cut(copied, len)), 0)]
  }

  lemma {:induction false} RunsJoin(axi: bool, hw: bool, slots: seq<Slot>, hs: seq<Half>, a: seq<Entry>,
                                    slots1: seq<Slot>, hs1: seq<Half>, b: seq<Entry>, slots2: seq<Slot>, hs2: seq<Half>)
    requires Run(axi, hw, slots, hs, a, slots1, hs1) && Run(axi, hw, slots1, hs1, b, slots2, hs2)
    ensures Run(axi, hw, slots, hs, a + b, slots2, hs2)
    decreases |b|
  {
    hide Serves;
    if b == [] {
      assert a + b == a;
    } else {
      var front, e := b[..|b| - 1], b[|b| - 1];
      var s, h :| Run(axi, hw, slots1, hs1, front, s, h) && Serves(axi, hw, s, h, slots2, hs2, e);
      RunsJoin(axi, hw, slots, hs, a, slots1, hs1, front, s, h);
      RunGoesOn(axi, hw, slots, hs, a + front, s, h, slots2, hs2, e);
      assert a + front + [e] == a + b;
    }
  }
}
