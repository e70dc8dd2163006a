// Every request the DMA dispatcher has taken is answered, whatever the stream
// hardware does, as long as every thread that can run is run in the end.
module DmaLiveness {
  import opened DmaProtocol
  import opened DmaSafety

  datatype Thread = DispatcherThread | WorkerThread(k: nat)

  datatype Turn = Pause | Do(e: Event)

  predicate By(t: Turn, th: Thread) {
    t.Do? && match th
             case DispatcherThread => t.e.Dispatch? || t.e.Recv?
             case WorkerThread(k) => t.e == Work(k)
  }

  predicate CanRun(s: State, th: Thread)
    requires WellFormed(s)
  {
    match th
    case DispatcherThread => Enabled(s, Dispatch) || exists k :: 0 <= k < SLOTS && Enabled(s, Recv(k))
    case WorkerThread(k) => Enabled(s, Work(k))
  }

  ghost predicate MovesAt(tr: nat -> State, turns: nat -> Turn, i: nat) {
    && WellFormed(tr(i))
    && match turns(i)
       case Pause => tr(i + 1) == tr(i)
       case Do(e) => Enabled(tr(i), e) && tr(i + 1) == Apply(tr(i), e)
  }

  ghost predicate IsTrace(tr: nat -> State, turns: nat -> Turn) {
    tr(0) == Init() && forall i: nat :: MovesAt(tr, turns, i)
  }

  ghost predicate RunsAfter(tr: nat -> State, turns: nat -> Turn, th: Thread, i: nat)
    requires IsTrace(tr, turns)
  {
    exists j: nat :: i <= j && MovesAt(tr, turns, j) && (By(turns(j), th) || !CanRun(tr(j), th))
  }

  // No thread is able to run for ever without being run.
  ghost predicate Fair(tr: nat -> State, turns: nat -> Turn)
    requires IsTrace(tr, turns)
  {
    forall th: Thread, i: nat :: RunsAfter(tr, turns, th, i)
  }

  // --------------------------------------------------------------- a measure

  predicate Blocked(s: State)
    requires WellFormed(s) && !s.disp.Receive?
  {
    (s.disp.AwaitArmed? && !s.slots[s.disp.k].armedBit) || (s.disp.AwaitDone? && !s.slots[s.disp.k].doneBit)
  }

  function Phase(d: Dispatcher): nat {
    match d
    case PostFields(_, _, _) => 6
    case SignalJob(_) => 5
    case AwaitArmed(_) => 4
    case AwaitDone(_, _) => 3
    case ReadResult(_, _) => 2
    case Reply(_, _) => 1
    case Receive => 0
  }

  function Remaining(sl: Slot, elapsed: nat): nat {
    if elapsed <= sl.timeout then sl.timeout - elapsed else 0
  }

  // How many steps the worker can still take before it signals.
  function WorkLeft(sl: Slot): nat {
    match sl.worker
    case AwaitJob => 20
    case TakeJob => 19
    case ClearFlags => 18
    case StopStream => 17
    case EnableStream => 16
    case TellArmed => 15
    case Poll(e) => 3 * Remaining(sl, e) + 6
    case Expire(e) => 3 * Remaining(sl, e) + 5
    case Sleep(e) => 3 * Remaining(sl, e) + 4
    case Acknowledge(_) => 3
    case Store(_, _) => 2
    case TellDone => 1
  }

  function Left(s: State): nat
    requires WellFormed(s) && !s.disp.Receive?
  {
    if Blocked(s) then WorkLeft(s.slots[s.disp.k]) else 0
  }

  function Helpful(s: State): Thread
    requires WellFormed(s) && !s.disp.Receive?
  {
    if Blocked(s) then WorkerThread(s.disp.k) else DispatcherThread
  }

  lemma HelpfulCanRun(s: State)
    requires Inv(s) && !s.disp.Receive?
    ensures CanRun(s, Helpful(s))
  {
    assert SlotInv(s.slots[s.disp.k], DmaSafety.Turn(s.disp, s.disp.k));
  }

  predicate Awaited(sl: Slot, d: Dispatcher) {
    (d.AwaitArmed? && !sl.armedBit) || (d.AwaitDone? && !sl.doneBit)
  }

  // The worker's step brings the awaited signal or leaves less to do.
  predicate Shrinks(sl: Slot, d: Dispatcher, t: Slot) {
    Awaited(t, d) ==> WorkLeft(t) < WorkLeft(sl)
  }

  lemma AwaitedWorker(sl: Slot, d: Dispatcher)
    requires SlotInv(sl, d) && Awaited(sl, d)
    ensures d.AwaitArmed? ==> BeforeTell(sl)
    ensures d.AwaitDone? ==> !BeforeTell(sl) && !sl.worker.AwaitJob? && (sl.worker.TellDone? || sl.timeout > 0)
    ensures sl.worker.Sleep? ==> sl.worker.elapsed < sl.timeout
    ensures sl.worker.TakeJob? ==> sl.job
    ensures sl.worker.AwaitJob? ==> sl.jobBit
    ensures sl.jobBit ==> sl.worker.AwaitJob?
  {
  }

  lemma StartShrinks(sl: Slot, d: Dispatcher)
    requires Awaited(sl, d) && (sl.worker.TakeJob? ==> sl.job)
    ensures sl.worker.AwaitJob? ==> Shrinks(sl, d, DoAwaitJob(sl))
    ensures sl.worker.TakeJob? ==> Shrinks(sl, d, DoTakeJob(sl))
  {
  }

  lemma StopShrinks(sl: Slot, d: Dispatcher)
    requires Awaited(sl, d)
    ensures sl.worker.ClearFlags? ==> Shrinks(sl, d, DoClearFlags(sl))
    ensures sl.worker.StopStream? ==> Shrinks(sl, d, DoStopStream(sl))
  {
  }

  lemma EnableShrinks(sl: Slot, d: Dispatcher)
    requires Awaited(sl, d)
    ensures sl.worker.EnableStream? ==> Shrinks(sl, d, DoEnableStream(sl))
    ensures sl.worker.TellArmed? && d.AwaitArmed? ==> Shrinks(sl, d, DoTellArmed(sl))
  {
  }

  lemma TellShrinks(sl: Slot, d: Dispatcher)
    requires Awaited(sl, d)
    ensures sl.worker.TellDone? && d.AwaitDone? ==> Shrinks(sl, d, DoTellDone(sl))
    ensures sl.worker.Store? ==> Shrinks(sl, d, DoStore(sl, sl.worker.res, sl.worker.genuine))
  {
  }

  lemma PollShrinks(sl: Slot, d: Dispatcher)
    requires Awaited(sl, d)
    ensures sl.worker.Poll? ==> Shrinks(sl, d, DoPoll(sl, sl.worker.elapsed))
    ensures sl.worker.Acknowledge? ==> Shrinks(sl, d, DoAcknowledge(sl, sl.worker.genuine))
  {
  }

  lemma ExpireShrinks(sl: Slot, d: Dispatcher)
    requires Awaited(sl, d) && (sl.worker.Sleep? ==> sl.worker.elapsed < sl.timeout)
    ensures sl.worker.Expire? ==> Shrinks(sl, d, DoGiveUp(sl)) && Shrinks(sl, d, DoRest(sl, sl.worker.elapsed))
    ensures sl.worker.Sleep? ==> Shrinks(sl, d, DoSleep(sl, sl.worker.elapsed))
  {
  }

  lemma WorkShrinks(sl: Slot, d: Dispatcher)
    requires SlotInv(sl, d) && Awaited(sl, d)
    ensures WorkLeft(sl) > 0 && Shrinks(sl, d, WorkStep(sl))
  {
    AwaitedWorker(sl, d);
    hide SlotInv;
    StartShrinks(sl, d);
    StopShrinks(sl, d);
    EnableShrinks(sl, d);
    TellShrinks(sl, d);
    PollShrinks(sl, d);
    ExpireShrinks(sl, d);
    hide Shrinks, DoAwaitJob, DoTakeJob, DoClearFlags, DoStopStream, DoEnableStream, DoTellArmed, DoPoll,
      DoAcknowledge, DoGiveUp, DoRest, DoSleep, DoStore, DoTellDone;
  }

  // ---------------------------------------------------------------- one step

  // Until the dispatcher moves, the request it serves is the same and what is
  // left for the worker does not grow; a step of the helpful thread is the
  // dispatcher's or leaves less.
  lemma StepHelps(s: State, e: Event)
    requires Inv(s) && !s.disp.Receive? && Enabled(s, e) && e != Dispatch
    ensures var t := Apply(s, e);
      && t.disp == s.disp && t.replies == s.replies
      && Left(t) <= Left(s)
      && (By(Do(e), Helpful(s)) ==> Left(t) < Left(s))
      && (Left(t) == Left(s) ==> Helpful(t) == Helpful(s))
  {
    var k := s.disp.k;
    var d := DmaSafety.Turn(s.disp, k);
    var t := Apply(s, e);
    assert SlotInv(s.slots[k], d) && s.slots[k].client.InService?;
    hide SlotInv, Inv, WorkLeft, WorkStep, CompleteStep, Eased;
    if Awaited(s.slots[k], d) {
      WorkShrinks(s.slots[k], d);
    }
    SameEases(s.slots[k], d);
    match e
    case Call(j, req) => SlotEases(s, t, false);
    case Work(j) =>
      if j == k {
        WorkEases(s.slots[k], d);
      }
      SlotEases(s, t, j == k);
    case Complete(j, data) =>
      CompleteEases(s.slots[k], d, data);
      SlotEases(s, t, false);
  }

  // What the request waits for stays there once it is there, and no more is
  // left to do for it; strictly less if told so.
  predicate Eased(sl: Slot, d: Dispatcher, t: Slot, strictly: bool) {
    Awaited(t, d) ==> Awaited(sl, d) && WorkLeft(t) <= WorkLeft(sl) && (strictly ==> WorkLeft(t) < WorkLeft(sl))
  }

  lemma SlotEases(s: State, t: State, strictly: bool)
    requires WellFormed(s) && WellFormed(t) && !s.disp.Receive? && t.disp == s.disp
    requires var d := DmaSafety.Turn(s.disp, s.disp.k);
      && Eased(s.slots[s.disp.k], d, t.slots[s.disp.k], strictly)
      && (Awaited(s.slots[s.disp.k], d) ==> WorkLeft(s.slots[s.disp.k]) > 0)
    ensures Left(t) <= Left(s) && (Left(t) == Left(s) ==> Helpful(t) == Helpful(s))
    ensures strictly && Blocked(s) ==> Left(t) < Left(s)
  {
    hide WorkLeft;
  }

  lemma SameEases(sl: Slot, d: Dispatcher)
    ensures Eased(sl, d, sl, false)
    ensures forall c: Client :: Eased(sl, d, sl.(client := c), false)
  {
  }

  lemma WorkEases(sl: Slot, d: Dispatcher)
    requires Awaited(sl, d) ==> Shrinks(sl, d, WorkStep(sl))
    ensures Eased(sl, d, WorkStep(sl), true)
  {
    BitsStay(sl);
    hide WorkStep, WorkLeft;
  }

  lemma BitsStay(sl: Slot)
    ensures sl.armedBit ==> WorkStep(sl).armedBit
    ensures sl.doneBit ==> WorkStep(sl).doneBit
  {
    EarlyBitsStay(sl);
    LastBitsStay(sl);
    hide DoAwaitJob, DoTakeJob, DoClearFlags, DoStopStream, DoEnableStream, DoTellArmed, DoPoll, DoAcknowledge,
      DoGiveUp, DoRest, DoSleep, DoStore, DoTellDone;
    match sl.worker
    case AwaitJob | TakeJob | ClearFlags | StopStream | EnableStream | TellArmed =>
    case Poll(e) => PollBitsStay(sl, e);
    case Expire(e) => PollBitsStay(sl, e);
    case Sleep(e) => PollBitsStay(sl, e);
    case Acknowledge(g) => StoreBitsStay(sl, OK, g);
    case Store(res, g) => StoreBitsStay(sl, res, g);
    case TellDone =>
  }

  predicate BitsKept(sl: Slot, t: Slot) { (sl.armedBit ==> t.armedBit) && (sl.doneBit ==> t.doneBit) }

  lemma EarlyBitsStay(sl: Slot)
    ensures BitsKept(sl, DoAwaitJob(sl)) && BitsKept(sl, DoTakeJob(sl)) && BitsKept(sl, DoClearFlags(sl))
    ensures BitsKept(sl, DoStopStream(sl)) && BitsKept(sl, DoEnableStream(sl)) && BitsKept(sl, DoTellArmed(sl))
  {
  }

  lemma LastBitsStay(sl: Slot)
    ensures BitsKept(sl, DoGiveUp(sl)) && BitsKept(sl, DoTellDone(sl))
  {
  }

  lemma PollBitsStay(sl: Slot, e: nat)
    ensures BitsKept(sl, DoPoll(sl, e)) && BitsKept(sl, DoRest(sl, e)) && BitsKept(sl, DoSleep(sl, e))
  {
  }

  lemma StoreBitsStay(sl: Slot, res: Status, g: bool)
    ensures BitsKept(sl, DoStore(sl, res, g)) && BitsKept(sl, DoAcknowledge(sl, g))
  {
  }

  lemma CompleteEases(sl: Slot, d: Dispatcher, data: seq<byte>)
    requires |data| == XFER_MAX
    ensures Eased(sl, d, CompleteStep(sl, data), false)
  {
  }

  lemma {:induction false} TraceKeeps(tr: nat -> State, turns: nat -> Turn, i: nat)
    requires IsTrace(tr, turns)
    ensures Inv(tr(i))
  {
    hide Inv, Apply, Enabled, Init;
    if i == 0 {
      InitKeeps();
    } else {
      TraceKeeps(tr, turns, i - 1);
      assert MovesAt(tr, turns, i - 1);
      if turns(i - 1).Do? {
        StepKeeps(tr(i - 1), turns(i - 1).e);
      }
    }
  }

  lemma {:induction false} MoveHelps(tr: nat -> State, turns: nat -> Turn, i: nat)
    requires IsTrace(tr, turns) && !tr(i).disp.Receive? && turns(i) != Do(Dispatch)
    ensures MovesAt(tr, turns, i) && MovesAt(tr, turns, i + 1)
    ensures tr(i + 1).disp == tr(i).disp && tr(i + 1).replies == tr(i).replies
    ensures Left(tr(i + 1)) <= Left(tr(i))
    ensures By(turns(i), Helpful(tr(i))) ==> Left(tr(i + 1)) < Left(tr(i))
    ensures Left(tr(i + 1)) == Left(tr(i)) ==> Helpful(tr(i + 1)) == Helpful(tr(i))
  {
    assert MovesAt(tr, turns, i) && MovesAt(tr, turns, i + 1);
    TraceKeeps(tr, turns, i);
    hide Inv, Apply, Enabled, Left, Helpful;
    if turns(i).Do? {
      StepHelps(tr(i), turns(i).e);
    }
  }

  // The request the dispatcher is serving at time i gets its reply at time j.
  ghost predicate AnsweredAt(tr: nat -> State, turns: nat -> Turn, i: nat, j: nat) {
    && i <= j && turns(j) == Do(Dispatch) && tr(j).disp.Reply?
    && !tr(i).disp.Receive? && tr(j).disp.k == tr(i).disp.k && tr(j).replies == tr(i).replies
  }

  // Nothing has been decided for the request between i and j.
  ghost predicate SameAs(tr: nat -> State, turns: nat -> Turn, i: nat, j: nat) {
    && i <= j && MovesAt(tr, turns, i) && MovesAt(tr, turns, j)
    && tr(j).disp == tr(i).disp && tr(j).replies == tr(i).replies && !tr(i).disp.Receive?
    && Left(tr(j)) == Left(tr(i)) && Helpful(tr(j)) == Helpful(tr(i))
  }

  ghost predicate StopsBy(tr: nat -> State, turns: nat -> Turn, h: Thread, stop: nat) {
    MovesAt(tr, turns, stop) && (By(turns(stop), h) || !CanRun(tr(stop), h))
  }

  // The dispatcher's step at j, or a step that leaves the worker less to do.
  ghost predicate Progress(tr: nat -> State, turns: nat -> Turn, j: nat) {
    && MovesAt(tr, turns, j) && MovesAt(tr, turns, j + 1) && !tr(j).disp.Receive?
    && (turns(j) == Do(Dispatch) || (tr(j + 1).disp == tr(j).disp && tr(j + 1).replies == tr(j).replies
                                     && Left(tr(j + 1)) < Left(tr(j))))
  }

  lemma {:induction false} HelpComes(tr: nat -> State, turns: nat -> Turn, i: nat, j0: nat, stop: nat) returns (j: nat)
    requires IsTrace(tr, turns) && SameAs(tr, turns, i, j0) && j0 <= stop
    requires StopsBy(tr, turns, Helpful(tr(i)), stop)
    ensures SameAs(tr, turns, i, j) && Progress(tr, turns, j)
    decreases stop - j0
  {
    j := j0;
    assert MovesAt(tr, turns, j + 1);
    if turns(j) != Do(Dispatch) {
      MoveHelps(tr, turns, j);
      TraceKeeps(tr, turns, j);
      HelpfulCanRun(tr(j));
      hide Inv, Apply, Enabled, Left, Helpful, CanRun, By, IsTrace, MovesAt;
      if Left(tr(j + 1)) == Left(tr(j)) {
        assert j != stop;
        j := HelpComes(tr, turns, i, j + 1, stop);
      }
    }
  }

  ghost function LeftAt(tr: nat -> State, turns: nat -> Turn, i: nat): nat {
    if MovesAt(tr, turns, i) && !tr(i).disp.Receive? then Left(tr(i)) else 0
  }

  lemma NextProgress(tr: nat -> State, turns: nat -> Turn, i: nat) returns (j: nat)
    requires IsTrace(tr, turns) && Fair(tr, turns) && !tr(i).disp.Receive?
    ensures SameAs(tr, turns, i, j) && Progress(tr, turns, j)
  {
    assert MovesAt(tr, turns, i);
    var h := Helpful(tr(i));
    assert RunsAfter(tr, turns, h, i);
    hide Inv, Apply, Enabled, Left, Helpful, CanRun, By, Progress;
    var stop: nat :| i <= stop && MovesAt(tr, turns, stop) && (By(turns(stop), h) || !CanRun(tr(stop), h));
    j := HelpComes(tr, turns, i, i, stop);
  }

  // A step of the dispatcher moves the request on; any other progress leaves
  // less to do for the worker.
  lemma Advance(tr: nat -> State, turns: nat -> Turn, i: nat, j: nat)
    requires IsTrace(tr, turns) && SameAs(tr, turns, i, j) && Progress(tr, turns, j)
    ensures AnsweredAt(tr, turns, i, j) || Nearer(tr, turns, i, j + 1)
  {
    assert MovesAt(tr, turns, i);
    if turns(j) == Do(Dispatch) && !tr(j).disp.Reply? {
      MovesOn(tr, turns, j);
    }
  }

  ghost predicate Nearer(tr: nat -> State, turns: nat -> Turn, i: nat, j: nat) {
    && i <= j && !tr(i).disp.Receive? && !tr(j).disp.Receive?
    && tr(j).disp.k == tr(i).disp.k && tr(j).replies == tr(i).replies
    && (Phase(tr(j).disp) < Phase(tr(i).disp)
        || (Phase(tr(j).disp) == Phase(tr(i).disp) && LeftAt(tr, turns, j) < LeftAt(tr, turns, i)))
  }

  lemma {:induction false} EveryRequestIsAnswered(tr: nat -> State, turns: nat -> Turn, i: nat) returns (j: nat)
    requires IsTrace(tr, turns) && Fair(tr, turns) && !tr(i).disp.Receive?
    ensures AnsweredAt(tr, turns, i, j)
    decreases Phase(tr(i).disp), LeftAt(tr, turns, i)
  {
    hide IsTrace, Fair, MovesAt, SameAs, Progress, Phase, LeftAt;
    j := NextProgress(tr, turns, i);
    Advance(tr, turns, i, j);
    if !AnsweredAt(tr, turns, i, j) {
      j := EveryRequestIsAnswered(tr, turns, j + 1);
    }
  }

  lemma MovesOn(tr: nat -> State, turns: nat -> Turn, i: nat)
    requires IsTrace(tr, turns) && turns(i) == Do(Dispatch) && !tr(i).disp.Receive? && !tr(i).disp.Reply?
    ensures MovesAt(tr, turns, i + 1) && !tr(i + 1).disp.Receive?
    ensures tr(i + 1).disp.k == tr(i).disp.k && tr(i + 1).replies == tr(i).replies
    ensures Phase(tr(i + 1).disp) < Phase(tr(i).disp)
  {
    assert MovesAt(tr, turns, i) && MovesAt(tr, turns, i + 1);
    TraceKeeps(tr, turns, i);
    hide Inv, Apply, Enabled, Phase;
    DispatchAdvances(tr(i));
  }

  lemma DispatchAdvances(s: State)
    requires Inv(s) && !s.disp.Receive? && !s.disp.Reply? && Enabled(s, Dispatch)
    ensures var t := Apply(s, Dispatch);
      && !t.disp.Receive? && t.disp.k == s.disp.k && t.replies == s.replies && Phase(t.disp) < Phase(s.disp)
  {
  }
}
