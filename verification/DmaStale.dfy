// When a success reported for an arm may stem from an earlier transfer: the
// worker clears the flags before it stops the stream, so a transfer left
// running by a timeout can still complete in between.
module DmaStale {
  import opened DmaProtocol
  import opened DmaSafety

  // ---------------------------------------- only a running stream goes stale

  // The arm that had n outcomes before it is on a clean course, or was.
  predicate OnCleanCourse(sl: Slot, n: nat) {
    || (|sl.outcomes| == n && sl.worker.ClearFlags? && !sl.enabled)
    || (|sl.outcomes| == n && sl.cleanStart && !sl.worker.AwaitJob? && !sl.worker.TakeJob?
        && !sl.worker.ClearFlags? && !sl.worker.TellDone?)
    || (|sl.outcomes| > n && sl.outcomes[n].clean)
  }

  // What the dispatcher and the client never change.
  predicate WorkerUntouched(a: Slot, b: Slot) {
    && a.worker == b.worker && a.enabled == b.enabled && a.flag == b.flag
    && a.outcomes == b.outcomes && a.cleanStart == b.cleanStart
  }

  lemma AcceptUntouched(sl: Slot, k: nat, req: Request)
    ensures WorkerUntouched(sl, Accept(sl, k, req).slot)
  {
  }

  lemma DispatchUntouched(sl: Slot, d: Dispatcher)
    requires !d.Receive?
    ensures WorkerUntouched(sl, DispatchMove(sl, d).slot)
  {
  }

  lemma WorkStaysClean(sl: Slot, n: nat)
    requires OnCleanCourse(sl, n)
    ensures OnCleanCourse(WorkStep(sl), n)
  {
    if sl.worker.Store? {
      assert WorkStep(sl) == DoStore(sl, sl.worker.res, sl.worker.genuine);
    } else if sl.worker.ClearFlags? {
      assert WorkStep(sl) == DoClearFlags(sl);
    } else {
      OtherWork(sl);
      hide WorkStep;
    }
  }

  // A worker step that neither starts an arm nor records its result.
  predicate Between(sl: Slot, t: Slot) {
    && t.outcomes == sl.outcomes && t.cleanStart == sl.cleanStart
    && (t.worker.AwaitJob? || t.worker.TakeJob? || t.worker.ClearFlags? || t.worker.TellDone? ==>
          sl.worker.AwaitJob? || sl.worker.TakeJob? || sl.worker.TellDone?)
  }

  lemma OtherWork(sl: Slot)
    requires !sl.worker.Store? && !sl.worker.ClearFlags?
    ensures Between(sl, WorkStep(sl))
  {
    BetweenWaits(sl);
    BetweenStarts(sl);
    BetweenJobs(sl);
    BetweenTellings(sl);
    BetweenPolls(sl);
    BetweenSleeps(sl);
    hide Between, DoAwaitJob, DoTakeJob, DoStopStream, DoEnableStream, DoTellArmed, DoPoll,
      DoAcknowledge, DoGiveUp, DoRest, DoSleep, DoTellDone;
  }

  lemma BetweenWaits(sl: Slot)
    ensures sl.worker.AwaitJob? ==> Between(sl, DoAwaitJob(sl))
    ensures sl.worker.TellDone? ==> Between(sl, DoTellDone(sl))
  {
  }

  lemma BetweenJobs(sl: Slot)
    ensures sl.worker.TakeJob? ==> Between(sl, DoTakeJob(sl))
  {
  }

  lemma BetweenStarts(sl: Slot)
    ensures sl.worker.StopStream? ==> Between(sl, DoStopStream(sl))
    ensures sl.worker.EnableStream? ==> Between(sl, DoEnableStream(sl))
  {
  }

  lemma BetweenTellings(sl: Slot)
    ensures sl.worker.TellArmed? ==> Between(sl, DoTellArmed(sl))
  {
  }

  lemma BetweenPolls(sl: Slot)
    ensures sl.worker.Poll? ==> Between(sl, DoPoll(sl, sl.worker.elapsed))
    ensures sl.worker.Acknowledge? ==> Between(sl, DoAcknowledge(sl, sl.worker.genuine))
  {
  }

  lemma BetweenSleeps(sl: Slot)
    ensures sl.worker.Expire? ==> Between(sl, DoGiveUp(sl)) && Between(sl, DoRest(sl, sl.worker.elapsed))
    ensures sl.worker.Sleep? ==> Between(sl, DoSleep(sl, sl.worker.elapsed))
  {
  }

  lemma StepStaysClean(s: State, e: Event, k: nat, n: nat)
    requires Inv(s) && Enabled(s, e) && k < SLOTS && OnCleanCourse(s.slots[k], n)
    ensures OnCleanCourse(Apply(s, e).slots[k], n)
  {
    hide SlotInv, WorkStep, Accept, DispatchMove;
    match e
    case Call(_, _) =>
    case Recv(j) => AcceptUntouched(s.slots[j], j, s.slots[j].client.req);
    case Dispatch => DispatchUntouched(s.slots[s.disp.k], s.disp);
    case Work(j) => if j == k { WorkStaysClean(s.slots[k], n); }
    case Complete(_, _) =>
  }

  lemma {:induction false} RunStaysClean(s: State, events: seq<Event>, t: State, k: nat, n: nat)
    requires Inv(s) && Run(s, events, t) && k < SLOTS && OnCleanCourse(s.slots[k], n)
    ensures Inv(t) && OnCleanCourse(t.slots[k], n)
    decreases |events|
  {
    hide SlotInv, OnCleanCourse, Apply, Enabled;
    if events != [] {
      StepKeeps(s, events[0]);
      StepStaysClean(s, events[0], k, n);
      RunStaysClean(Apply(s, events[0]), events[1..], t, k, n);
    }
  }

  // ------------------------------------------------- steps of one slot alone

  datatype Tick = Turning | Completing(data: seq<byte>)

  function LocalEvent(k: nat, t: Tick): Event {
    match t
    case Turning => Work(k)
    case Completing(data) => Complete(k, data)
  }

  predicate LocalOk(sl: Slot, t: Tick) {
    match t
    case Turning => sl.worker.AwaitJob? ==> sl.jobBit
    case Completing(data) => sl.enabled && |data| == XFER_MAX
  }

  function LocalStep(sl: Slot, t: Tick): Slot
    requires LocalOk(sl, t)
  {
    match t
    case Turning => WorkStep(sl)
    case Completing(data) => CompleteStep(sl, data)
  }

  lemma LocalRun(s: State, k: nat, sl: Slot, t: Tick, next: Slot, events: seq<Event>, u: State)
    requires WellFormed(s) && k < SLOTS && LocalOk(sl, t) && next == LocalStep(sl, t)
    requires Run(Put(s, k, next), events, u)
    ensures Run(Put(s, k, sl), [LocalEvent(k, t)] + events, u)
  {
    hide WorkStep, CompleteStep;
    var e, p := LocalEvent(k, t), Put(s, k, sl);
    assert Enabled(p, e);
    assert p.slots[k := next] == s.slots[k := next];
    assert Apply(p, e) == Put(s, k, next);
    assert ([e] + events)[1..] == events;
  }

  // ---------------------------------------------- a running stream goes stale

  predicate StaleAt(t: State, k: nat, n: nat) {
    && WellFormed(t) && k < SLOTS && n < |t.slots[k].outcomes|
    && t.slots[k].outcomes[n].res.OK? && !t.slots[k].outcomes[n].genuine
  }

  // From the point where the flags are cleared with the stream still running:
  // the old transfer completes, the stream is stopped and enabled again, and
  // the first poll takes the old completion for the new one.
  lemma OldCompletionTaken(s: State, k: nat, sl: Slot) returns (events: seq<Event>, u: State)
    requires WellFormed(s) && k < SLOTS && sl.worker.ClearFlags?
    requires sl.enabled && sl.completed <= sl.enables
    ensures Run(Put(s, k, sl), events, u) && StaleAt(u, k, |sl.outcomes|)
  {
    var data: seq<byte> := seq(XFER_MAX, _ => 0);
    var a := DoClearFlags(sl);
    var b := CompleteStep(a, data);
    var c := DoStopStream(b);
    var d := DoEnableStream(c);
    assert a.enabled && a.worker.StopStream? && b.worker.StopStream? && c.worker.EnableStream?;
    assert d.worker.TellArmed? && d.flag && d.completed < d.enables && d.outcomes == sl.outcomes;
    hide StaleAt, Run, DoClearFlags, CompleteStep, DoStopStream, DoEnableStream;
    events, u := FirstPollSucceeds(s, k, d);
    LocalRun(s, k, c, Turning, d, events, u);
    LocalRun(s, k, b, Turning, c, [Work(k)] + events, u);
    LocalRun(s, k, a, Completing(data), b, [Work(k)] + ([Work(k)] + events), u);
    LocalRun(s, k, sl, Turning, a, [Complete(k, data)] + ([Work(k)] + ([Work(k)] + events)), u);
    events := [Work(k)] + ([Complete(k, data)] + ([Work(k)] + ([Work(k)] + events)));
  }

  lemma FirstPollSucceeds(s: State, k: nat, sl: Slot) returns (events: seq<Event>, u: State)
    requires WellFormed(s) && k < SLOTS && sl.worker.TellArmed? && sl.flag && sl.completed < sl.enables
    ensures Run(Put(s, k, sl), events, u) && StaleAt(u, k, |sl.outcomes|)
  {
    var a := DoTellArmed(sl);
    var b := DoPoll(a, 0);
    assert a.worker == Poll(0) && b.worker == Acknowledge(false) && b.outcomes == sl.outcomes;
    hide DoTellArmed, DoPoll, Run, StaleAt;
    events, u := StoreOldCompletion(s, k, b);
    LocalRun(s, k, a, Turning, b, events, u);
    LocalRun(s, k, sl, Turning, a, [Work(k)] + events, u);
    events := [Work(k)] + ([Work(k)] + events);
  }

  lemma StoreOldCompletion(s: State, k: nat, sl: Slot) returns (events: seq<Event>, u: State)
    requires WellFormed(s) && k < SLOTS && sl.worker == Acknowledge(false)
    ensures Run(Put(s, k, sl), events, u) && StaleAt(u, k, |sl.outcomes|)
  {
    var c := DoAcknowledge(sl, false);
    var d := DoStore(c, OK, false);
    assert c.worker == Store(OK, false);
    assert d.outcomes[|sl.outcomes|].res.OK? && !d.outcomes[|sl.outcomes|].genuine;
    hide DoAcknowledge, DoStore;
    u := Put(s, k, d);
    LocalRun(s, k, c, Turning, d, [], u);
    LocalRun(s, k, sl, Turning, c, [Work(k)] + [], u);
    events := [Work(k)] + ([Work(k)] + []);
  }

  // The exact condition: an arm can report a success that is not its own if
  // and only if its stream is still enabled when its flags are cleared.
  lemma StaleExactly(s: State, k: nat)
    requires Inv(s) && k < SLOTS && s.slots[k].worker.ClearFlags?
    ensures s.slots[k].enabled <==>
      exists events, u :: Run(s, events, u) && StaleAt(u, k, |s.slots[k].outcomes|)
  {
    var sl, n := s.slots[k], |s.slots[k].outcomes|;
    assert SlotInv(sl, Turn(s.disp, k));
    if sl.enabled {
      assert Put(s, k, sl) == s;
      var events, u := OldCompletionTaken(s, k, sl);
    } else {
      forall events, u | Run(s, events, u) && StaleAt(u, k, n) ensures false {
        RunStaysClean(s, events, u, k, n);
        CleanIsGenuine(u, k, n);
      }
    }
  }

  lemma CleanIsGenuine(u: State, k: nat, n: nat)
    requires Inv(u) && k < SLOTS && OnCleanCourse(u.slots[k], n)
    ensures !StaleAt(u, k, n)
  {
    assert SlotInv(u.slots[k], Turn(u.disp, k));
  }

  // ------------------------------------------------ the same at the call

  // No arm is under way that could find its stream running.
  predicate Resting(sl: Slot, n: nat) {
    OnCleanCourse(sl, n) || (|sl.outcomes| == n && !sl.enabled && (sl.worker.AwaitJob? || sl.worker.TakeJob?))
  }

  lemma WorkKeepsResting(sl: Slot, d: Dispatcher, n: nat)
    requires SlotInv(sl, d) && Resting(sl, n)
    ensures Resting(WorkStep(sl), n)
  {
    assert sl.worker.TakeJob? ==> sl.job;
    hide SlotInv;
    if OnCleanCourse(sl, n) {
      WorkStaysClean(sl, n);
    } else if sl.worker.AwaitJob? {
      assert WorkStep(sl) == DoAwaitJob(sl);
    } else {
      assert WorkStep(sl) == DoTakeJob(sl);
    }
  }

  lemma StepKeepsResting(s: State, e: Event, k: nat, n: nat)
    requires Inv(s) && Enabled(s, e) && k < SLOTS && Resting(s.slots[k], n)
    ensures Resting(Apply(s, e).slots[k], n)
  {
    assert SlotInv(s.slots[k], Turn(s.disp, k));
    hide SlotInv, WorkStep, Accept, DispatchMove;
    match e
    case Call(_, _) =>
    case Recv(j) => AcceptUntouched(s.slots[j], j, s.slots[j].client.req);
    case Dispatch => DispatchUntouched(s.slots[s.disp.k], s.disp);
    case Work(j) => if j == k { WorkKeepsResting(s.slots[k], Turn(s.disp, k), n); }
    case Complete(_, _) =>
  }

  lemma {:induction false} RunKeepsResting(s: State, events: seq<Event>, t: State, k: nat, n: nat)
    requires Inv(s) && Run(s, events, t) && k < SLOTS && Resting(s.slots[k], n)
    ensures Inv(t) && Resting(t.slots[k], n)
    decreases |events|
  {
    hide SlotInv, Resting, Apply, Enabled;
    if events != [] {
      StepKeeps(s, events[0]);
      StepKeepsResting(s, events[0], k, n);
      RunKeepsResting(Apply(s, events[0]), events[1..], t, k, n);
    }
  }

  ghost predicate CanGoStale(s: State, k: nat, n: nat)
    requires WellFormed(s)
  {
    exists events, u :: Run(s, events, u) && StaleAt(u, k, n)
  }

  lemma Then(s: State, e: Event, t: State, k: nat, n: nat)
    requires WellFormed(s) && Enabled(s, e) && Apply(s, e) == t && CanGoStale(t, k, n)
    ensures CanGoStale(s, k, n)
  {
    var events, u :| Run(t, events, u) && StaleAt(u, k, n);
    assert ([e] + events)[1..] == events;
    assert Run(s, [e] + events, u);
  }

  // Slot k of s in the state sl, and the dispatcher at d.
  function With(s: State, k: nat, sl: Slot, d: Dispatcher): (t: State)
    requires WellFormed(s) && k < SLOTS && (d.Receive? || d.k == k)
    ensures WellFormed(t)
  {
    Put(s, k, sl).(disp := d)
  }

  lemma ThenWork(s: State, k: nat, sl: Slot, d: Dispatcher, next: Slot, n: nat)
    requires WellFormed(s) && k < SLOTS && (d.Receive? || d.k == k)
    requires (sl.worker.AwaitJob? ==> sl.jobBit) && next == WorkStep(sl) && CanGoStale(With(s, k, next, d), k, n)
    ensures CanGoStale(With(s, k, sl, d), k, n)
  {
    hide WorkStep, CanGoStale;
    assert s.slots[k := sl][k := next] == s.slots[k := next];
    Then(With(s, k, sl, d), Work(k), With(s, k, next, d), k, n);
  }

  lemma ThenDispatch(s: State, k: nat, sl: Slot, d: Dispatcher, m: Move, n: nat)
    requires WellFormed(s) && k < SLOTS && (d.PostFields? || d.SignalJob?) && d.k == k
    requires m == DispatchMove(sl, d) && !m.disp.Receive? && m.disp.k == k
    requires CanGoStale(With(s, k, m.slot, m.disp), k, n)
    ensures CanGoStale(With(s, k, sl, d), k, n)
  {
    hide DispatchMove, CanGoStale;
    assert s.slots[k := sl][k := m.slot] == s.slots[k := m.slot];
    Then(With(s, k, sl, d), Dispatch, With(s, k, m.slot, m.disp), k, n);
  }

  lemma JobGoesStale(s: State, k: nat, sl: Slot)
    requires WellFormed(s) && k < SLOTS && sl.worker.AwaitJob? && sl.jobBit && sl.job
    requires sl.enabled && sl.completed <= sl.enables
    ensures CanGoStale(With(s, k, sl, AwaitArmed(k)), k, |sl.outcomes|)
  {
    var a := DoAwaitJob(sl);
    var b := DoTakeJob(a);
    assert a.worker.TakeJob? && b.worker.ClearFlags? && b.enabled && b.completed <= b.enables;
    assert b.outcomes == sl.outcomes;
    hide DoAwaitJob, DoTakeJob, StaleAt, Run;
    var events, u := OldCompletionTaken(s.(disp := AwaitArmed(k)), k, b);
    assert With(s, k, b, AwaitArmed(k)) == Put(s.(disp := AwaitArmed(k)), k, b);
    assert CanGoStale(With(s, k, b, AwaitArmed(k)), k, |sl.outcomes|);
    hide CanGoStale;
    ThenWork(s, k, a, AwaitArmed(k), b, |sl.outcomes|);
    ThenWork(s, k, sl, AwaitArmed(k), a, |sl.outcomes|);
  }

  lemma ArmGoesStale(s: State, k: nat, sl: Slot)
    requires WellFormed(s) && k < SLOTS && sl.client == InService(Arm(1, 1)) && sl.worker.AwaitJob?
    requires sl.enabled && sl.completed <= sl.enables
    ensures CanGoStale(With(s, k, sl, PostFields(k, 1, 1)), k, |sl.outcomes|)
  {
    var m := MovePostFields(sl, k, 1, 1);
    var m1 := MoveSignalJob(m.slot, k);
    assert m1.slot.jobBit && m1.slot.job && m1.slot.worker.AwaitJob? && m1.slot.enabled;
    assert m1.slot.completed <= m1.slot.enables && m1.slot.outcomes == sl.outcomes;
    assert m.disp == SignalJob(k) && m1.disp == AwaitArmed(k);
    hide MovePostFields, MoveSignalJob, CanGoStale;
    JobGoesStale(s, k, m1.slot);
    ThenDispatch(s, k, m.slot, SignalJob(k), m1, |sl.outcomes|);
    ThenDispatch(s, k, sl, PostFields(k, 1, 1), m, |sl.outcomes|);
  }

  lemma CallGoesStale(s: State, k: nat)
    requires WellFormed(s) && k < SLOTS && s.disp.Receive? && s.slots[k].client.Idle? && s.slots[k].open
    requires s.slots[k].worker.AwaitJob? && s.slots[k].enabled && s.slots[k].completed <= s.slots[k].enables
    ensures CanGoStale(s, k, |s.slots[k].outcomes|)
  {
    var sl := s.slots[k];
    var called := sl.(client := Calling(Arm(1, 1)));
    var taken := sl.(client := InService(Arm(1, 1)));
    hide CanGoStale;
    ArmGoesStale(s, k, taken);
    ThenRecv(s, k, called, taken, |sl.outcomes|);
    hide With, Put, Accept;
    ThenCall(s, k, called, |sl.outcomes|);
  }

  lemma ThenRecv(s: State, k: nat, called: Slot, taken: Slot, n: nat)
    requires WellFormed(s) && k < SLOTS && called.client == Calling(Arm(1, 1)) && called.open
    requires taken == called.(client := InService(Arm(1, 1)))
    requires CanGoStale(With(s, k, taken, PostFields(k, 1, 1)), k, n)
    ensures CanGoStale(With(s, k, called, Receive), k, n)
  {
    var m := Move(taken, PostFields(k, 1, 1));
    assert Accept(called, k, Arm(1, 1)) == m;
    hide Accept, CanGoStale;
    assert s.slots[k := called][k := taken] == s.slots[k := taken];
    Then(With(s, k, called, Receive), Recv(k), With(s, k, taken, PostFields(k, 1, 1)), k, n);
  }

  lemma ThenCall(s: State, k: nat, called: Slot, n: nat)
    requires WellFormed(s) && k < SLOTS && s.disp.Receive? && s.slots[k].client.Idle?
    requires called == s.slots[k].(client := Calling(Arm(1, 1))) && CanGoStale(With(s, k, called, Receive), k, n)
    ensures CanGoStale(s, k, n)
  {
    hide CanGoStale;
    Then(s, Call(k, Arm(1, 1)), With(s, k, called, Receive), k, n);
  }

  lemma IdleIsResting(sl: Slot, d: Dispatcher)
    requires SlotInv(sl, d) && sl.client.Idle?
    ensures sl.worker.AwaitJob? && sl.completed <= sl.enables
  {
  }

  // The condition as the client meets it: its next arm can be answered with an
  // older success if and only if its stream is still enabled when it calls.
  lemma StaleAtCallExactly(s: State, k: nat)
    requires Inv(s) && k < SLOTS && s.disp.Receive? && s.slots[k].client.Idle? && s.slots[k].open
    ensures s.slots[k].enabled <==> CanGoStale(s, k, |s.slots[k].outcomes|)
  {
    var sl, n := s.slots[k], |s.slots[k].outcomes|;
    assert SlotInv(sl, Turn(s.disp, k));
    IdleIsResting(sl, Turn(s.disp, k));
    hide SlotInv;
    if sl.enabled {
      CallGoesStale(s, k);
    } else {
      forall events, u | Run(s, events, u) ensures !StaleAt(u, k, n) {
        RunKeepsResting(s, events, u, k, n);
        RestingIsGenuine(u, k, n);
      }
    }
  }

  lemma RestingIsGenuine(u: State, k: nat, n: nat)
    requires Inv(u) && k < SLOTS && Resting(u.slots[k], n)
    ensures !StaleAt(u, k, n)
  {
    if OnCleanCourse(u.slots[k], n) {
      CleanIsGenuine(u, k, n);
    }
  }

  // ------------------------------------------------ a run that shows it

  // Slot 0 in the state sl, the other slots untouched.
  function Conf(sl: Slot, d: Dispatcher, replies: nat): (s: State)
    requires d.Receive? || d.k == 0
    ensures WellFormed(s)
  {
    State(d, Init().slots[0 := sl], replies)
  }

  // From sl, d some run reaches a stale success of slot 0.
  ghost predicate LeadsToStale(sl: Slot, d: Dispatcher, replies: nat, n: nat)
    requires d.Receive? || d.k == 0
  {
    exists events, u :: Run(Conf(sl, d, replies), events, u) && StaleAt(u, 0, n)
  }

  lemma Step(sl: Slot, d: Dispatcher, r: nat, n: nat, e: Event, sl': Slot, d': Dispatcher, r': nat)
    requires (d.Receive? || d.k == 0) && (d'.Receive? || d'.k == 0)
    requires Enabled(Conf(sl, d, r), e) && Apply(Conf(sl, d, r), e) == Conf(sl', d', r')
    requires LeadsToStale(sl', d', r', n)
    ensures LeadsToStale(sl, d, r, n)
  {
    var events, u :| Run(Conf(sl', d', r'), events, u) && StaleAt(u, 0, n);
    assert ([e] + events)[1..] == events;
    assert Run(Conf(sl, d, r), [e] + events, u);
  }

  lemma WorkerStep(sl: Slot, d: Dispatcher, r: nat, n: nat, sl': Slot)
    requires d.Receive? || d.k == 0
    requires (sl.worker.AwaitJob? ==> sl.jobBit) && sl' == WorkStep(sl)
    requires LeadsToStale(sl', d, r, n)
    ensures LeadsToStale(sl, d, r, n)
  {
    hide WorkStep, LeadsToStale;
    Step(sl, d, r, n, Work(0), sl', d, r);
  }

  lemma ClientStep(sl: Slot, r: nat, n: nat, req: Request, m: Move)
    requires MayCall(sl.client, req)
    requires m == Accept(sl.(client := Calling(req)), 0, req)
    requires LeadsToStale(m.slot, m.disp, r, n)
    ensures LeadsToStale(sl, Receive, r, n)
  {
    hide Accept, LeadsToStale;
    var called := sl.(client := Calling(req));
    Step(called, Receive, r, n, Recv(0), m.slot, m.disp, r);
    Step(sl, Receive, r, n, Call(0, req), called, Receive, r);
  }

  lemma DispatcherStep(sl: Slot, d: Dispatcher, r: nat, n: nat, m: Move)
    requires !d.Receive? && d.k == 0 && m == DispatchMove(sl, d)
    requires (d.AwaitArmed? ==> sl.armedBit) && (d.AwaitDone? ==> sl.doneBit)
    requires LeadsToStale(m.slot, m.disp, r + if m.disp.Receive? then 1 else 0, n)
    ensures LeadsToStale(sl, d, r, n)
  {
    hide DispatchMove, LeadsToStale;
    Step(sl, d, r, n, Dispatch, m.slot, m.disp, r + if m.disp.Receive? then 1 else 0);
  }

  lemma FromSecondJob(sl: Slot, r: nat)
    requires sl.worker.AwaitJob? && sl.jobBit && sl.job && sl.enabled && sl.completed <= sl.enables
    ensures LeadsToStale(sl, AwaitArmed(0), r, |sl.outcomes|)
  {
    var a := DoAwaitJob(sl);
    var b := DoTakeJob(a);
    assert a.worker.TakeJob? && b.worker.ClearFlags? && b.enabled && b.completed <= b.enables;
    assert b.outcomes == sl.outcomes;
    hide DoAwaitJob, DoTakeJob;
    var s := Init().(disp := AwaitArmed(0), replies := r);
    var events, u := OldCompletionTaken(s, 0, b);
    assert Put(s, 0, b) == Conf(b, AwaitArmed(0), r);
    assert LeadsToStale(b, AwaitArmed(0), r, |sl.outcomes|);
    WorkerStep(a, AwaitArmed(0), r, |sl.outcomes|, b);
    WorkerStep(sl, AwaitArmed(0), r, |sl.outcomes|, a);
  }

  // The slot once the arm of an idle client has been posted.
  function Posted(sl: Slot): Slot {
    sl.(client := InService(Arm(1, 1)), len := 1, timeout := 1, job := true, jobBit := true, arms := sl.arms + 1)
  }

  lemma PostArm(sl: Slot, r: nat, n: nat)
    requires sl.client.Idle? && sl.open && LeadsToStale(Posted(sl), AwaitArmed(0), r, n)
    ensures LeadsToStale(sl, Receive, r, n)
  {
    hide LeadsToStale;
    var m := Move(sl.(client := InService(Arm(1, 1))), PostFields(0, 1, 1));
    assert Accept(sl.(client := Calling(Arm(1, 1))), 0, Arm(1, 1)) == m;
    PostFieldsAndSignal(m.slot, r, n, Posted(sl));
    hide Accept, Posted;
    ClientStep(sl, r, n, Arm(1, 1), m);
  }

  lemma PostFieldsAndSignal(sl: Slot, r: nat, n: nat, next: Slot)
    requires LeadsToStale(next, AwaitArmed(0), r, n)
    requires next == sl.(len := 1, timeout := 1, job := true, jobBit := true, arms := sl.arms + 1)
    ensures LeadsToStale(sl, PostFields(0, 1, 1), r, n)
  {
    hide LeadsToStale;
    var m1 := Move(sl.(len := 1, timeout := 1, job := true), SignalJob(0));
    var m2 := Move(next, AwaitArmed(0));
    assert DispatchMove(m1.slot, SignalJob(0)) == m2;
    assert DispatchMove(sl, PostFields(0, 1, 1)) == m1;
    hide DispatchMove;
    DispatcherStep(m1.slot, m1.disp, r, n, m2);
    DispatcherStep(sl, PostFields(0, 1, 1), r, n, m1);
  }

  lemma FromSecondArm(sl: Slot, r: nat)
    requires sl.client.Idle? && sl.open && sl.worker.AwaitJob? && sl.enabled && sl.completed <= sl.enables
    ensures LeadsToStale(sl, Receive, r, |sl.outcomes|)
  {
    hide LeadsToStale;
    FromSecondJob(Posted(sl), r);
    PostArm(sl, r, |sl.outcomes|);
  }

  lemma FromWait(sl: Slot, r: nat)
    requires sl.client.Armed? && sl.open && sl.doneBit && sl.worker.AwaitJob?
    requires sl.enabled && sl.completed <= sl.enables
    ensures LeadsToStale(sl, Receive, r, |sl.outcomes|)
  {
    hide LeadsToStale;
    var m := Move(sl.(client := InService(Wait(0))), AwaitDone(0, 0));
    assert Accept(sl.(client := Calling(Wait(0))), 0, Wait(0)) == m;
    FromAwaitDone(m.slot, r);
    hide Accept;
    ClientStep(sl, r, |sl.outcomes|, Wait(0), m);
  }

  lemma FromAwaitDone(sl: Slot, r: nat)
    requires sl.client == InService(Wait(0)) && sl.open && sl.doneBit && sl.worker.AwaitJob?
    requires sl.enabled && sl.completed <= sl.enables
    ensures LeadsToStale(sl, AwaitDone(0, 0), r, |sl.outcomes|)
  {
    hide LeadsToStale;
    var m := DispatchMove(sl, AwaitDone(0, 0));
    assert m == Move(sl.(doneBit := false, taken := sl.taken + 1), ReadResult(0, 0));
    FromReadResult(m.slot, r);
    hide DispatchMove;
    DispatcherStep(sl, AwaitDone(0, 0), r, |sl.outcomes|, m);
  }

  lemma FromReadResult(sl: Slot, r: nat)
    requires sl.client == InService(Wait(0)) && sl.open && sl.worker.AwaitJob?
    requires sl.enabled && sl.completed <= sl.enables
    ensures LeadsToStale(sl, ReadResult(0, 0), r, |sl.outcomes|)
  {
    hide LeadsToStale;
    var m := MoveReadResult(sl, 0, 0);
    var m1 := MoveReply(m.slot, sl.result);
    assert m.disp == Reply(0, sl.result) && m1.disp.Receive? && m1.slot.client.Idle?;
    FromSecondArm(m1.slot, r + 1);
    assert m1.slot.outcomes == sl.outcomes;
    assert DispatchMove(m.slot, m.disp) == m1 && DispatchMove(sl, ReadResult(0, 0)) == m;
    hide DispatchMove, MoveReadResult, MoveReply;
    DispatcherStep(m.slot, m.disp, r, |sl.outcomes|, m1);
    DispatcherStep(sl, ReadResult(0, 0), r, |sl.outcomes|, m);
  }

  lemma FromLastExpiry(sl: Slot, r: nat)
    requires sl.client.Armed? && sl.open && sl.worker == Expire(1) && sl.timeout == 1
    requires sl.enabled && sl.completed <= sl.enables
    ensures LeadsToStale(sl, Receive, r, |sl.outcomes| + 1)
  {
    var a := DoGiveUp(sl);
    var b := DoStore(a, ETIMEOUT, true);
    var c := DoTellDone(b);
    assert a.worker == Store(ETIMEOUT, true) && b.worker.TellDone? && |c.outcomes| == |sl.outcomes| + 1;
    assert c.client.Armed? && c.open && c.doneBit && c.worker.AwaitJob? && c.enabled && c.completed <= c.enables;
    hide DoGiveUp, DoStore, DoTellDone, LeadsToStale;
    FromWait(c, r);
    WorkerStep(b, Receive, r, |c.outcomes|, c);
    WorkerStep(a, Receive, r, |c.outcomes|, b);
    WorkerStep(sl, Receive, r, |c.outcomes|, a);
  }

  lemma FromFirstPoll(sl: Slot, r: nat)
    requires sl.client.Armed? && sl.open && sl.worker == Poll(0) && sl.timeout == 1
    requires !sl.flag && sl.enabled && sl.completed <= sl.enables
    ensures LeadsToStale(sl, Receive, r, |sl.outcomes| + 1)
  {
    var n := |sl.outcomes| + 1;
    var a := DoPoll(sl, 0);
    var b := DoRest(a, 0);
    assert a.worker == Expire(0) && b.worker == Sleep(0) && b.outcomes == sl.outcomes;
    assert b.client.Armed? && b.open && b.timeout == 1 && b.enabled && !b.flag && b.completed <= b.enables;
    assert a.timeout == 1;
    hide DoPoll, DoRest, LeadsToStale;
    FromFirstSleep(b, r);
    WorkerStep(a, Receive, r, n, b);
    WorkerStep(sl, Receive, r, n, a);
  }

  lemma FromFirstSleep(sl: Slot, r: nat)
    requires sl.client.Armed? && sl.open && sl.worker == Sleep(0) && sl.timeout == 1
    requires !sl.flag && sl.enabled && sl.completed <= sl.enables
    ensures LeadsToStale(sl, Receive, r, |sl.outcomes| + 1)
  {
    var n := |sl.outcomes| + 1;
    var c := DoSleep(sl, 0);
    var d := DoPoll(c, 1);
    assert c.worker == Poll(1) && d.worker == Expire(1) && d.outcomes == sl.outcomes;
    assert d.client.Armed? && d.open && d.timeout == 1 && d.enabled && d.completed <= d.enables;
    hide DoSleep, DoPoll, LeadsToStale;
    FromLastExpiry(d, r);
    WorkerStep(c, Receive, r, n, d);
    WorkerStep(sl, Receive, r, n, c);
  }

  lemma FromEnable(sl: Slot, r: nat)
    requires sl.client == InService(Arm(1, 1)) && sl.open && sl.worker.EnableStream? && sl.timeout == 1
    requires !sl.flag && sl.completed <= sl.enables
    ensures LeadsToStale(sl, AwaitArmed(0), r, |sl.outcomes| + 1)
  {
    var n := |sl.outcomes| + 1;
    var a := DoEnableStream(sl);
    var b := DoTellArmed(a);
    assert a.worker.TellArmed? && b.worker == Poll(0) && b.armedBit && b.outcomes == sl.outcomes;
    assert b.client == InService(Arm(1, 1)) && b.open && b.timeout == 1;
    assert !b.flag && b.enabled && b.completed <= b.enables;
    hide DoEnableStream, DoTellArmed, LeadsToStale;
    FromAwaitArmed(b, r);
    WorkerStep(a, AwaitArmed(0), r, n, b);
    WorkerStep(sl, AwaitArmed(0), r, n, a);
  }

  lemma FromAwaitArmed(sl: Slot, r: nat)
    requires sl.client == InService(Arm(1, 1)) && sl.open && sl.worker == Poll(0) && sl.timeout == 1
    requires sl.armedBit && !sl.flag && sl.enabled && sl.completed <= sl.enables
    ensures LeadsToStale(sl, AwaitArmed(0), r, |sl.outcomes| + 1)
  {
    var n := |sl.outcomes| + 1;
    hide LeadsToStale;
    var m := Move(sl.(armedBit := false), Reply(0, OK));
    var m1 := Move(sl.(armedBit := false, client := Armed), Receive);
    assert DispatchMove(m.slot, m.disp) == m1 && DispatchMove(sl, AwaitArmed(0)) == m;
    hide DispatchMove;
    FromFirstPoll(m1.slot, r + 1);
    DispatcherStep(m.slot, m.disp, r, n, m1);
    DispatcherStep(sl, AwaitArmed(0), r, n, m);
  }

  lemma FromFirstJob(sl: Slot, r: nat)
    requires sl.client == InService(Arm(1, 1)) && sl.open && sl.worker.AwaitJob? && sl.jobBit && sl.job
    requires sl.timeout == 1 && sl.completed <= sl.enables
    ensures LeadsToStale(sl, AwaitArmed(0), r, |sl.outcomes| + 1)
  {
    var n := |sl.outcomes| + 1;
    var a := DoAwaitJob(sl);
    var b := DoTakeJob(a);
    var c := DoClearFlags(b);
    var d := DoStopStream(c);
    assert a.worker.TakeJob? && b.worker.ClearFlags? && c.worker.StopStream? && d.worker.EnableStream?;
    assert d.client == InService(Arm(1, 1)) && d.open && d.timeout == 1 && !d.flag;
    assert d.completed <= d.enables && d.outcomes == sl.outcomes;
    hide DoAwaitJob, DoTakeJob, DoClearFlags, DoStopStream, LeadsToStale;
    FromEnable(d, r);
    WorkerStep(c, AwaitArmed(0), r, n, d);
    WorkerStep(b, AwaitArmed(0), r, n, c);
    WorkerStep(a, AwaitArmed(0), r, n, b);
    WorkerStep(sl, AwaitArmed(0), r, n, a);
  }

  lemma FromOpen(sl: Slot, r: nat)
    requires sl.client.Idle? && sl.open && sl.worker.AwaitJob? && sl.completed <= sl.enables
    ensures LeadsToStale(sl, Receive, r, |sl.outcomes| + 1)
  {
    hide LeadsToStale;
    FromFirstJob(Posted(sl), r);
    PostArm(sl, r, |sl.outcomes| + 1);
  }

  // A run from power-up in which the first wait times out and the second one
  // reports a success that belongs to the first transfer.
  lemma StaleSuccessHappens()
    ensures exists u :: Reachable(u) && StaleAt(u, 0, 1)
  {
    var sl := FreshSlot();
    var m := AcceptOpen(sl.(client := InService(Open(false))), 0, false);
    var m1 := MoveReply(m.slot, OK);
    assert sl.worker.AwaitJob? && sl.outcomes == [] && sl.client.Idle? && sl.completed == sl.enables && !sl.open;
    assert m.disp == Reply(0, OK) && m1.slot.client.Idle? && m1.slot.open && m1.slot.outcomes == [];
    hide FreshSlot;
    FromOpen(m1.slot, 1);
    FirstReply(sl, m, m1);
    var events, u :| Run(Conf(sl, Receive, 0), events, u) && StaleAt(u, 0, 1);
    assert Conf(sl, Receive, 0) == Init();
    assert Reachable(u);
  }

  lemma FirstReply(sl: Slot, m: Move, m1: Move)
    requires sl.client.Idle? && !sl.open && m == AcceptOpen(sl.(client := InService(Open(false))), 0, false)
    requires m1 == MoveReply(m.slot, OK)
    requires LeadsToStale(m1.slot, Receive, 1, 1)
    ensures LeadsToStale(sl, Receive, 0, 1)
  {
    hide LeadsToStale;
    DispatcherStep(m.slot, m.disp, 0, 1, m1);
    ClientStep(sl, 0, 1, Open(false), m);
  }

  // ------------------------------------------------------------ a quiet stream

  // The stream is stopped when it is enabled, and after a success of its own
  // arm it is stopped with its flag down.
  predicate Quiet(sl: Slot) {
    && (sl.worker.EnableStream? ==> !sl.enabled)
    && (sl.worker.Store? && sl.worker.res.OK? && sl.worker.genuine ==> !sl.enabled && !sl.flag)
  }

  lemma WorkKeepsQuiet(sl: Slot, d: Dispatcher)
    requires SlotInv(sl, d) && Quiet(sl)
    ensures Quiet(WorkStep(sl))
  {
    hide SlotInv;
    GenuineIsStopped(sl, d);
    StopIsQuiet(sl);
    EarlyIsQuiet(sl);
    LastIsQuiet(sl);
    hide Quiet, DoAwaitJob, DoTakeJob, DoClearFlags, DoStopStream, DoEnableStream, DoTellArmed, DoPoll,
      DoAcknowledge, DoGiveUp, DoRest, DoSleep, DoStore, DoTellDone;
    match sl.worker
    case AwaitJob | TakeJob | ClearFlags | StopStream | EnableStream | TellArmed =>
    case Poll(e) => PollIsQuiet(sl, e);
    case Expire(e) => PollIsQuiet(sl, e);
    case Sleep(e) => PollIsQuiet(sl, e);
    case Acknowledge(g) => AcknowledgeIsQuiet(sl, g);
    case Store(res, g) => StoreIsQuiet(sl, res, g);
    case TellDone =>
  }

  lemma GenuineIsStopped(sl: Slot, d: Dispatcher)
    requires SlotInv(sl, d)
    ensures sl.worker.Acknowledge? && sl.worker.genuine ==> !sl.enabled
  {
  }

  lemma StopIsQuiet(sl: Slot)
    ensures Quiet(DoStopStream(sl)) && Quiet(DoEnableStream(sl))
  {
  }

  lemma EarlyIsQuiet(sl: Slot)
    ensures Quiet(DoAwaitJob(sl)) && Quiet(DoTakeJob(sl)) && Quiet(DoClearFlags(sl))
  {
  }

  lemma LastIsQuiet(sl: Slot)
    ensures Quiet(DoTellArmed(sl)) && Quiet(DoGiveUp(sl)) && Quiet(DoTellDone(sl))
  {
  }

  lemma PollIsQuiet(sl: Slot, e: nat)
    ensures Quiet(DoPoll(sl, e)) && Quiet(DoRest(sl, e)) && Quiet(DoSleep(sl, e))
  {
  }

  lemma AcknowledgeIsQuiet(sl: Slot, g: bool)
    requires g ==> !sl.enabled
    ensures Quiet(DoAcknowledge(sl, g))
  {
  }

  lemma StoreIsQuiet(sl: Slot, res: Status, g: bool)
    ensures Quiet(DoStore(sl, res, g))
  {
  }

  lemma StepKeepsQuiet(s: State, e: Event, k: nat)
    requires Inv(s) && Enabled(s, e) && k < SLOTS && Quiet(s.slots[k])
    ensures Quiet(Apply(s, e).slots[k])
  {
    assert SlotInv(s.slots[k], Turn(s.disp, k));
    hide SlotInv, WorkStep, Accept, DispatchMove;
    match e
    case Call(_, _) =>
    case Recv(j) => AcceptUntouched(s.slots[j], j, s.slots[j].client.req);
    case Dispatch => DispatchUntouched(s.slots[s.disp.k], s.disp);
    case Work(j) => if j == k { WorkKeepsQuiet(s.slots[k], Turn(s.disp, k)); }
    case Complete(_, _) =>
  }

  lemma {:induction false} RunKeepsQuiet(s: State, events: seq<Event>, t: State, k: nat)
    requires Inv(s) && Run(s, events, t) && k < SLOTS && Quiet(s.slots[k])
    ensures Inv(t) && Quiet(t.slots[k])
    decreases |events|
  {
    hide SlotInv, Enabled, Apply, Quiet;
    if events != [] {
      StepKeeps(s, events[0]);
      StepKeepsQuiet(s, events[0], k);
      RunKeepsQuiet(Apply(s, events[0]), events[1..], t, k);
    }
  }

  // In every reachable state: a worker about to enable its stream has stopped
  // it, and one about to record a success of its own arm has it stopped with
  // the flag cleared.
  lemma StreamsAreQuiet(s: State, k: nat)
    requires Reachable(s) && k < SLOTS
    ensures Quiet(s.slots[k])
  {
    var events :| Run(Init(), events, s);
    InitKeeps();
    RunKeepsQuiet(Init(), events, s, k);
  }
}
