// What every run of the DMA service keeps.
module DmaSafety {
  import opened DmaProtocol

  // The part the dispatcher is playing for slot k.
  function Turn(d: Dispatcher, k: nat): Dispatcher {
    if !d.Receive? && d.k == k then d else Receive
  }

  // The JOB bit is up or the worker has not yet enabled the stream.
  predicate BeforeEnable(sl: Slot) {
    sl.jobBit || sl.worker.TakeJob? || sl.worker.ClearFlags? || sl.worker.StopStream? || sl.worker.EnableStream?
  }

  predicate BeforeTell(sl: Slot) {
    BeforeEnable(sl) || sl.worker.TellArmed?
  }

  predicate Working(sl: Slot) {
    sl.jobBit || !(sl.worker.AwaitJob? || sl.worker.TellDone?)
  }

  function One(b: bool): nat { if b then 1 else 0 }

  // One arm is at most one ahead of the answers, and the bits count exactly the
  // signals that were sent and not yet taken.
  predicate Counts(sl: Slot) {
    && |sl.buf| == |sl.delivered| == XFER_MAX
    && |sl.answers| <= sl.taken <= |sl.answers| + 1
    && sl.taken <= sl.arms <= sl.taken + 1
    && sl.arms == |sl.outcomes| + One(Working(sl))
    && |sl.outcomes| == sl.dones + One(sl.worker.TellDone?)
    && sl.dones == sl.taken + One(sl.doneBit)
    && sl.arms == sl.enables + One(BeforeEnable(sl))
    && (sl.jobBit ==> sl.job && sl.worker.AwaitJob?)
    && (sl.worker.TakeJob? ==> sl.job)
  }

  // Who waits for what.
  predicate Talk(sl: Slot, d: Dispatcher) {
    var outstanding := sl.arms == sl.taken + 1;
    && (sl.client.InService? <==> !d.Receive?)
    && (d.AwaitArmed? ==> sl.armedBit != BeforeTell(sl))
    && (!d.AwaitArmed? ==> !sl.armedBit && !BeforeTell(sl))
    && (d.ReadResult? <==> sl.taken == |sl.answers| + 1)
    && (outstanding ==> sl.open)
    && match sl.client
       case Idle => !outstanding
       case Armed => outstanding
       case Calling(req) => outstanding == req.Wait?
       case InService(req) =>
         if req.Wait? then
           && (d.AwaitDone? || d.ReadResult? || d.Reply?)
           && outstanding == d.AwaitDone?
         else if req.Arm? then
           && (d.PostFields? || d.SignalJob? || d.AwaitArmed? || d.Reply?)
           && sl.taken == |sl.answers|
           && (outstanding <==> d.AwaitArmed? || (d.Reply? && d.status.OK?))
           && (d.SignalJob? ==> sl.job)
           && (!d.Reply? ==> sl.open)
         else d.Reply? && !outstanding
  }

  // This arm's stream has been enabled and its wait has not been answered.
  predicate InFlight(sl: Slot) {
    sl.enables == sl.arms > |sl.answers|
  }

  predicate Hardware(sl: Slot) {
    && sl.completed <= sl.enables
    && (sl.enabled ==> sl.completed < sl.enables)
    && (InFlight(sl) ==> sl.enabled || sl.completed == sl.enables)
    && (InFlight(sl) && sl.completed == sl.enables ==> sl.buf == sl.delivered)
    && (sl.worker.Acknowledge? ==> sl.worker.genuine == (sl.completed == sl.enables) || !sl.worker.genuine)
    && (sl.worker.Store? && sl.worker.res.OK? && sl.worker.genuine ==> sl.completed == sl.enables)
  }

  // From a clean start no old completion can be taken for a new one.
  predicate Fresh(sl: Slot) {
    && (sl.cleanStart && (sl.worker.StopStream? || sl.worker.EnableStream?) ==> !sl.enabled && !sl.flag)
    && (sl.cleanStart && !BeforeEnable(sl) && !sl.worker.AwaitJob? && sl.flag ==> sl.completed == sl.enables)
    && (sl.cleanStart && sl.worker.Acknowledge? ==> sl.worker.genuine)
    && (sl.cleanStart && sl.worker.Store? && sl.worker.res.OK? ==> sl.worker.genuine)
  }

  predicate AllOk(outcomes: seq<Outcome>) {
    forall i :: 0 <= i < |outcomes| ==> outcomes[i].res.OK?
  }

  // As long as no arm has timed out every start is clean.
  predicate NeverStale(sl: Slot) {
    AllOk(sl.outcomes) ==>
      && (sl.worker.AwaitJob? || BeforeEnable(sl) || sl.worker.TellDone? ==> !sl.enabled)
      && (!sl.worker.AwaitJob? && !sl.worker.TakeJob? && !sl.worker.ClearFlags? ==> sl.cleanStart)
  }

  predicate Matches(a: Answer, o: Outcome) {
    && a.res == o.res
    && (o.res.OK? && o.genuine && |o.delivered| == XFER_MAX && o.len <= XFER_MAX ==>
          a.data == if o.m2p then [] else o.delivered[..Min(a.len, o.len)])
  }

  predicate History(sl: Slot) {
    && |sl.answers| <= |sl.outcomes|
    && (forall i :: 0 <= i < |sl.answers| ==> Matches(sl.answers[i], sl.outcomes[i]))
    && (forall i :: 0 <= i < |sl.outcomes| ==>
          && |sl.outcomes[i].delivered| == XFER_MAX && sl.outcomes[i].len <= XFER_MAX
          && (sl.outcomes[i].res.OK? && sl.outcomes[i].clean ==> sl.outcomes[i].genuine)
          && (AllOk(sl.outcomes[..i]) ==> sl.outcomes[i].clean))
    && (|sl.outcomes| > 0 ==> sl.result == sl.outcomes[|sl.outcomes| - 1].res)
    && (sl.arms > |sl.answers| ==> 0 < sl.len <= XFER_MAX)
    && (sl.arms == |sl.outcomes| > |sl.answers| ==>
          var o := sl.outcomes[|sl.outcomes| - 1];
          && o.len == sl.len && o.m2p == sl.m2p
          && (o.res.OK? && o.genuine ==> sl.completed == sl.enables && o.delivered == sl.delivered))
  }

  // A posted job has a length and a budget, and sleeping stays within it.
  predicate Budget(sl: Slot, d: Dispatcher) {
    && (d.PostFields? ==> 0 < d.len <= XFER_MAX)
    && (d.SignalJob? ==> 0 < sl.len <= XFER_MAX)
    && (d.SignalJob? || Working(sl) ==> sl.timeout > 0)
    && (sl.worker.Sleep? ==> sl.worker.elapsed < sl.timeout)
  }

  predicate SlotInv(sl: Slot, d: Dispatcher) {
    Counts(sl) && Talk(sl, d) && Hardware(sl) && Fresh(sl) && NeverStale(sl) && History(sl) && Budget(sl, d)
  }

  predicate Inv(s: State) {
    && WellFormed(s)
    && (forall k :: 0 <= k < SLOTS ==> SlotInv(s.slots[k], Turn(s.disp, k)))
  }

  // ------------------------------------------------------------ worker steps

  lemma AwaitJobKeeps(sl: Slot, d: Dispatcher)
    requires SlotInv(sl, d) && sl.worker.AwaitJob? && sl.jobBit
    ensures SlotInv(DoAwaitJob(sl), d)
  {
  }

  lemma TakeJobKeeps(sl: Slot, d: Dispatcher)
    requires SlotInv(sl, d) && sl.worker.TakeJob?
    ensures SlotInv(DoTakeJob(sl), d)
  {
  }

  lemma ClearFlagsKeeps(sl: Slot, d: Dispatcher)
    requires SlotInv(sl, d) && sl.worker.ClearFlags?
    ensures SlotInv(DoClearFlags(sl), d)
  {
  }

  lemma StopStreamKeeps(sl: Slot, d: Dispatcher)
    requires SlotInv(sl, d) && sl.worker.StopStream?
    ensures SlotInv(DoStopStream(sl), d)
  {
  }

  lemma EnableStreamKeeps(sl: Slot, d: Dispatcher)
    requires SlotInv(sl, d) && sl.worker.EnableStream?
    ensures SlotInv(DoEnableStream(sl), d)
  {
  }

  lemma TellArmedKeeps(sl: Slot, d: Dispatcher)
    requires SlotInv(sl, d) && sl.worker.TellArmed?
    ensures SlotInv(DoTellArmed(sl), d)
  {
  }

  lemma PollKeeps(sl: Slot, d: Dispatcher)
    requires SlotInv(sl, d) && sl.worker.Poll?
    ensures SlotInv(DoPoll(sl, sl.worker.elapsed), d)
  {
  }

  lemma AcknowledgeKeeps(sl: Slot, d: Dispatcher)
    requires SlotInv(sl, d) && sl.worker.Acknowledge?
    ensures SlotInv(DoAcknowledge(sl, sl.worker.genuine), d)
  {
  }

  lemma GiveUpKeeps(sl: Slot, d: Dispatcher)
    requires SlotInv(sl, d) && sl.worker.Expire?
    ensures SlotInv(DoGiveUp(sl), d)
  {
  }

  lemma RestKeeps(sl: Slot, d: Dispatcher)
    requires SlotInv(sl, d) && sl.worker.Expire? && !(sl.timeout != 0 && sl.worker.elapsed >= sl.timeout)
    ensures SlotInv(DoRest(sl, sl.worker.elapsed), d)
  {
  }

  lemma SleepKeeps(sl: Slot, d: Dispatcher)
    requires SlotInv(sl, d) && sl.worker.Sleep?
    ensures SlotInv(DoSleep(sl, sl.worker.elapsed), d)
  {
  }

  lemma StoreKeeps(sl: Slot, d: Dispatcher)
    requires SlotInv(sl, d) && sl.worker.Store?
    ensures SlotInv(DoStore(sl, sl.worker.res, sl.worker.genuine), d)
  {
    var t := DoStore(sl, sl.worker.res, sl.worker.genuine);
    assert t.outcomes[..|sl.outcomes|] == sl.outcomes;
    assert forall i {:trigger sl.outcomes[i]} :: 0 <= i < |sl.outcomes| ==>
        t.outcomes[i] == sl.outcomes[i] && t.outcomes[..i] == sl.outcomes[..i];
    assert AllOk(t.outcomes) ==> AllOk(sl.outcomes) && t.outcomes[|sl.outcomes|].res.OK?;
    assert Counts(t) && Talk(t, d) && Hardware(t) && Fresh(t) && NeverStale(t);
  }

  lemma TellDoneKeeps(sl: Slot, d: Dispatcher)
    requires SlotInv(sl, d) && sl.worker.TellDone?
    ensures SlotInv(DoTellDone(sl), d)
  {
  }

  lemma CompleteKeeps(sl: Slot, d: Dispatcher, data: seq<byte>)
    requires SlotInv(sl, d) && sl.enabled && |data| == XFER_MAX
    ensures SlotInv(CompleteStep(sl, data), d)
  {
  }

  lemma WorkKeeps(sl: Slot, d: Dispatcher)
    requires SlotInv(sl, d) && (sl.worker.AwaitJob? ==> sl.jobBit)
    ensures SlotInv(WorkStep(sl), d)
  {
    hide SlotInv, DoAwaitJob, DoTakeJob, DoClearFlags, DoStopStream, DoEnableStream, DoTellArmed, DoPoll,
      DoAcknowledge, DoGiveUp, DoRest, DoSleep, DoStore, DoTellDone;
    match sl.worker
    case AwaitJob => AwaitJobKeeps(sl, d);
    case TakeJob => TakeJobKeeps(sl, d);
    case ClearFlags => ClearFlagsKeeps(sl, d);
    case StopStream => StopStreamKeeps(sl, d);
    case EnableStream => EnableStreamKeeps(sl, d);
    case TellArmed => TellArmedKeeps(sl, d);
    case Poll(_) => PollKeeps(sl, d);
    case Acknowledge(_) => AcknowledgeKeeps(sl, d);
    case Expire(e) =>
      if sl.timeout != 0 && e >= sl.timeout {
        GiveUpKeeps(sl, d);
      } else {
        RestKeeps(sl, d);
      }
    case Sleep(_) => SleepKeeps(sl, d);
    case Store(_, _) => StoreKeeps(sl, d);
    case TellDone => TellDoneKeeps(sl, d);
  }

  // ------------------------------------------------- dispatcher and clients

  lemma CallKeeps(sl: Slot, d: Dispatcher, req: Request)
    requires SlotInv(sl, d) && MayCall(sl.client, req)
    ensures SlotInv(sl.(client := Calling(req)), d)
  {
  }

  predicate Served(m: Move) {
    SlotInv(m.slot, m.disp)
  }

  lemma AcceptOpenKeeps(sl: Slot, k: nat, m2p: bool)
    requires SlotInv(sl, Receive) && sl.client == Calling(Open(m2p))
    ensures Served(AcceptOpen(sl.(client := InService(Open(m2p))), k, m2p))
  {
    if sl.open {
    }
  }

  lemma AcceptCloseKeeps(sl: Slot, k: nat)
    requires SlotInv(sl, Receive) && sl.client == Calling(Close)
    ensures Served(AcceptClose(sl.(client := InService(Close)), k))
  {
  }

  lemma AcceptLoadKeeps(sl: Slot, k: nat, offset: nat, data: seq<byte>)
    requires SlotInv(sl, Receive) && sl.client == Calling(Load(offset, data))
    ensures Served(AcceptLoad(sl.(client := InService(Load(offset, data))), k, offset, data))
  {
    hide Overwrite;
  }

  lemma AcceptArmKeeps(sl: Slot, k: nat, len: nat, timeout: nat)
    requires SlotInv(sl, Receive) && sl.client == Calling(Arm(len, timeout))
    ensures Served(AcceptArm(sl.(client := InService(Arm(len, timeout))), k, len, timeout))
  {
  }

  lemma AcceptWaitKeeps(sl: Slot, k: nat, len: nat)
    requires SlotInv(sl, Receive) && sl.client == Calling(Wait(len))
    ensures Served(AcceptWait(sl.(client := InService(Wait(len))), k, len))
  {
  }

  lemma AcceptKeeps(sl: Slot, k: nat, req: Request)
    requires SlotInv(sl, Receive) && sl.client == Calling(req)
    ensures Served(Accept(sl, k, req))
  {
    hide SlotInv, Served, AcceptOpen, AcceptClose, AcceptLoad, AcceptArm, AcceptWait;
    match req
    case Open(m2p) => AcceptOpenKeeps(sl, k, m2p);
    case Close => AcceptCloseKeeps(sl, k);
    case Load(offset, data) => AcceptLoadKeeps(sl, k, offset, data);
    case Arm(len, timeout) => AcceptArmKeeps(sl, k, len, timeout);
    case Wait(len) => AcceptWaitKeeps(sl, k, len);
  }

  lemma PostFieldsKeeps(sl: Slot, d: Dispatcher)
    requires SlotInv(sl, d) && d.PostFields?
    ensures Served(MovePostFields(sl, d.k, d.len, d.timeout))
  {
  }

  lemma SignalJobKeeps(sl: Slot, d: Dispatcher)
    requires SlotInv(sl, d) && d.SignalJob?
    ensures Served(MoveSignalJob(sl, d.k))
  {
  }

  lemma AwaitArmedKeeps(sl: Slot, d: Dispatcher)
    requires SlotInv(sl, d) && d.AwaitArmed? && sl.armedBit
    ensures Served(Move(sl.(armedBit := false), Reply(d.k, OK)))
  {
  }

  lemma DoneKeeps(sl: Slot, d: Dispatcher)
    requires SlotInv(sl, d) && d.AwaitDone? && sl.doneBit
    ensures Served(MoveDone(sl, d.k, d.len))
  {
  }

  lemma ReadResultKeeps(sl: Slot, d: Dispatcher)
    requires SlotInv(sl, d) && d.ReadResult?
    ensures Served(MoveReadResult(sl, d.k, d.len))
  {
  }

  lemma ReplyKeeps(sl: Slot, d: Dispatcher)
    requires SlotInv(sl, d) && d.Reply?
    ensures Served(MoveReply(sl, d.status))
  {
  }

  lemma DispatchKeeps(sl: Slot, d: Dispatcher)
    requires SlotInv(sl, d) && !d.Receive?
    requires (d.AwaitArmed? ==> sl.armedBit) && (d.AwaitDone? ==> sl.doneBit)
    ensures Served(DispatchMove(sl, d))
  {
    hide SlotInv, Served, MovePostFields, MoveSignalJob, MoveDone, MoveReadResult, MoveReply;
    match d
    case PostFields(_, _, _) => PostFieldsKeeps(sl, d);
    case SignalJob(_) => SignalJobKeeps(sl, d);
    case AwaitArmed(_) => AwaitArmedKeeps(sl, d);
    case AwaitDone(_, _) => DoneKeeps(sl, d);
    case ReadResult(_, _) => ReadResultKeeps(sl, d);
    case Reply(_, _) => ReplyKeeps(sl, d);
  }

  // ------------------------------------------------------------------- runs

  lemma StepKeeps(s: State, e: Event)
    requires Inv(s) && Enabled(s, e)
    ensures Inv(Apply(s, e))
  {
    hide SlotInv, WorkStep, CompleteStep, Accept, DispatchMove;
    match e
    case Call(k, req) => CallKeeps(s.slots[k], Turn(s.disp, k), req);
    case Recv(k) =>
      AcceptKeeps(s.slots[k], k, s.slots[k].client.req);
    case Dispatch =>
      DispatchKeeps(s.slots[s.disp.k], s.disp);
    case Work(k) => WorkKeeps(s.slots[k], Turn(s.disp, k));
    case Complete(k, data) => CompleteKeeps(s.slots[k], Turn(s.disp, k), data);
  }

  lemma {:induction false} RunKeeps(s: State, events: seq<Event>, t: State)
    requires Inv(s) && Run(s, events, t)
    ensures Inv(t)
    decreases |events|
  {
    if events != [] {
      StepKeeps(s, events[0]);
      RunKeeps(Apply(s, events[0]), events[1..], t);
    }
  }

  lemma BlankSlotInv(sl: Slot)
    requires |sl.buf| == |sl.delivered| == XFER_MAX && sl.outcomes == [] && sl.answers == []
    requires sl.worker.AwaitJob? && sl.client.Idle? && !sl.jobBit && !sl.armedBit && !sl.doneBit
    requires !sl.enabled && sl.arms == sl.enables == sl.completed == sl.dones == sl.taken == 0
    ensures SlotInv(sl, Receive)
  {
  }

  lemma FreshSlotInv()
    ensures SlotInv(FreshSlot(), Receive)
  {
    hide SlotInv;
    BlankSlotInv(FreshSlot());
  }

  lemma InitKeeps()
    ensures Inv(Init())
  {
    FreshSlotInv();
    hide SlotInv, FreshSlot;
    assert forall k :: 0 <= k < SLOTS ==> Init().slots[k] == FreshSlot() && Turn(Init().disp, k) == Receive;
  }

  lemma ReachableKeeps(s: State)
    requires Reachable(s)
    ensures Inv(s)
  {
    InitKeeps();
    var events :| Run(Init(), events, s);
    hide Init, Run, Inv;
    RunKeeps(Init(), events, s);
  }

  // In every interleaving the n-th wait of a slot is answered with the result
  // that the worker recorded for the n-th arm of that slot, and a genuine
  // success brings the bytes that this arm's transfer delivered.
  lemma WaitsAnswerTheirArm(s: State, k: nat, n: nat)
    requires Reachable(s) && k < SLOTS && n < |s.slots[k].answers|
    ensures n < |s.slots[k].outcomes|
    ensures var a, o := s.slots[k].answers[n], s.slots[k].outcomes[n];
      && a.res == o.res
      && (o.res.OK? && o.genuine && o.m2p ==> a.data == [])
      && (o.res.OK? && o.genuine && !o.m2p ==>
            |o.delivered| == XFER_MAX && o.len <= XFER_MAX && a.data == o.delivered[..Min(a.len, o.len)])
  {
    ReachableKeeps(s);
    assert SlotInv(s.slots[k], Turn(s.disp, k));
    assert Matches(s.slots[k].answers[n], s.slots[k].outcomes[n]);
  }

  // When the dispatcher leaves an ARM, the stream of that very arm has been
  // enabled, and nothing of the arm has been reported yet.
  lemma ArmedAfterEnable(s: State)
    requires Reachable(s) && s.disp.AwaitArmed? && Enabled(s, Dispatch)
    ensures var sl := s.slots[s.disp.k];
      sl.enables == sl.arms && sl.arms == sl.taken + 1 && (sl.enabled || sl.completed == sl.enables)
  {
    ReachableKeeps(s);
    assert SlotInv(s.slots[s.disp.k], Turn(s.disp, s.disp.k));
  }

  // A worker about to signal DONE finds the bit down, and has signalled DONE
  // exactly once for every earlier arm: no completion is lost or doubled.
  lemma OneDonePerArm(s: State, k: nat)
    requires Reachable(s) && k < SLOTS
    ensures var sl := s.slots[k];
      && sl.taken <= sl.dones <= sl.arms <= sl.taken + 1
      && (sl.doneBit <==> sl.dones == sl.taken + 1)
      && (sl.worker.TellDone? ==> !sl.doneBit && sl.dones + 1 == sl.arms == |sl.outcomes|)
  {
    ReachableKeeps(s);
    assert SlotInv(s.slots[k], Turn(s.disp, k));
  }

  // ------------------------------------------------------- stale completions

  // A success is genuine as long as no earlier wait of the slot has timed out.
  lemma GenuineUntilTimeout(s: State, k: nat, n: nat)
    requires Reachable(s) && k < SLOTS && n < |s.slots[k].answers|
    requires forall i :: 0 <= i <= n ==> s.slots[k].answers[i].res.OK?
    ensures n < |s.slots[k].outcomes| && s.slots[k].outcomes[n].genuine
  {
    ReachableKeeps(s);
    var sl := s.slots[k];
    assert SlotInv(sl, Turn(s.disp, k));
    forall i | 0 <= i <= n ensures sl.outcomes[i].res.OK? {
      assert Matches(sl.answers[i], sl.outcomes[i]);
    }
    assert AllOk(sl.outcomes[..n]);
  }

  // Once an arm's transfer has ended and until its wait is answered, the bytes
  // moved are those in the slot: what the device sent, or what it was given.
  lemma MovedIsBuffer(s: State, k: nat)
    requires Reachable(s) && k < SLOTS
    ensures var sl := s.slots[k];
      sl.enables == sl.arms > |sl.answers| && sl.completed == sl.enables ==> sl.buf == sl.delivered
  {
    ReachableKeeps(s);
    assert SlotInv(s.slots[k], Turn(s.disp, k));
  }

  // ---------------------------------------------------------- the requests

  predicate Granted(m: Move) { !m.disp.Reply? || m.disp.status.OK? }

  // OPEN needs a closed slot, everything else an open one; a load and an arm
  // must fit the buffer.
  predicate Grantable(open: bool, req: Request) {
    && open != req.Open?
    && (req.Load? ==> 0 < |req.data| && req.offset + |req.data| <= XFER_MAX)
    && (req.Arm? ==> 0 < req.len <= XFER_MAX)
  }

  // The buffer with exactly the bytes of the data replaced.
  predicate Replaced(before: seq<byte>, after: seq<byte>, offset: nat, data: seq<byte>) {
    && |after| == |before|
    && forall i :: 0 <= i < |before| ==>
      after[i] == if offset <= i < offset + |data| then data[i - offset] else before[i]
  }

  // Which requests are granted, and all they change.
  lemma RequestsDoExactly(sl: Slot, k: nat, req: Request)
    requires |sl.buf| == XFER_MAX
    ensures var m := Accept(sl, k, req);
      && (Granted(m) <==> Grantable(sl.open, req))
      && m.slot.open == ((sl.open && !req.Close?) || req.Open?)
      && m.slot.m2p == (if req.Open? && !sl.open then req.m2p else sl.m2p)
      && (if Granted(m) && req.Load? then Replaced(sl.buf, m.slot.buf, req.offset, req.data) else m.slot.buf == sl.buf)
      && (Granted(m) && req.Arm? ==> m.disp == PostFields(k, req.len, req.timeout))
      && (Granted(m) && req.Wait? ==> m.disp == AwaitDone(k, req.len))
  {
    hide AcceptLoad, Replaced;
    if req.Load? {
      LoadDoesExactly(sl.(client := InService(req)), k, req.offset, req.data);
    }
  }

  lemma LoadDoesExactly(sl: Slot, k: nat, offset: nat, data: seq<byte>)
    requires |sl.buf| == XFER_MAX
    ensures var m := AcceptLoad(sl, k, offset, data);
      && (Granted(m) <==> sl.open && 0 < |data| && offset + |data| <= XFER_MAX)
      && m.slot.open == sl.open && m.slot.m2p == sl.m2p && m.disp.Reply?
      && (if Granted(m) then Replaced(sl.buf, m.slot.buf, offset, data) else m.slot.buf == sl.buf)
  {
    if offset + |data| <= XFER_MAX {
      OverwriteReplaces(sl.buf, offset, data);
    }
    hide Overwrite, Replaced;
  }

  lemma OverwriteReplaces(buf: seq<byte>, offset: nat, data: seq<byte>)
    requires offset + |data| <= |buf|
    ensures Replaced(buf, Overwrite(buf, offset, data), offset, data)
  {
  }
}
