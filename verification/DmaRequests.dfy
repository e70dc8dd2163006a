// What a client of the DMA service is told, in terms of what it asked for.  A
// book is kept beside every run: it sees the requests as they are taken, the
// statuses as they are sent back, the bytes a device moves, and how long the
// worker sleeps, and reads nothing that the service stores.
module DmaRequests {
  import opened DmaProtocol
  import opened DmaSafety

  // An ARM that was granted: its length, its time-out and the direction the
  // slot was opened with.
  datatype Grant = Grant(len: nat, budget: nat, m2p: bool)

  // One slot's part of a run.  `granted` is the verdict on the request in
  // service, `moved` what the last transfer moved, `slept` how long the worker
  // has slept since the stream was last enabled; `sleeps` and `moves` hold both
  // for every result the worker recorded.
  datatype Book = Book(
    open: bool, m2p: bool, buf: seq<byte>, granted: bool,
    arms: seq<Grant>, waits: seq<nat>, told: seq<Status>,
    moved: seq<byte>, slept: nat, sleeps: seq<nat>, moves: seq<seq<byte>>)

  function Blank(): Book {
    Book(false, false, seq(XFER_MAX, _ => 0), false, [], [], [], seq(XFER_MAX, _ => 0), 0, [], [])
  }

  // A time-out of zero asks for one second.
  function BudgetOf(timeout: nat): nat { if timeout == 0 then 1000 else timeout }

  function Patched(buf: seq<byte>, offset: nat, data: seq<byte>): (r: seq<byte>)
    ensures |r| == |buf|
  {
    seq(|buf|, i requires 0 <= i < |buf| => if offset <= i < offset + |data| then data[i - offset] else buf[i])
  }

  function Taken(b: Book, req: Request): Book {
    if !Grantable(b.open, req) then b.(granted := false)
    else
      var g := b.(granted := true);
      match req
      case Open(m2p) => g.(open := true, m2p := m2p)
      case Close => g.(open := false)
      case Load(offset, data) => g.(buf := Patched(b.buf, offset, data))
      case Arm(len, timeout) => g.(arms := b.arms + [Grant(len, BudgetOf(timeout), b.m2p)])
      case Wait(len) => g.(waits := b.waits + [len])
  }

  function Told(b: Book, c: Client, status: Status): Book {
    if c.InService? && c.req.Wait? then b.(told := b.told + [status]) else b
  }

  function Worked(b: Book, w: Worker): Book {
    match w
    case EnableStream => b.(slept := 0)
    case Sleep(_) => b.(slept := b.slept + 1)
    case Store(_, _) => b.(sleeps := b.sleeps + [b.slept], moves := b.moves + [b.moved])
    case _ => b
  }

  // The device takes the bytes of the buffer, or brings its own.
  function Came(b: Book, data: seq<byte>): Book {
    if b.m2p then b.(moved := b.buf) else b.(moved := data, buf := data)
  }

  function Note(b: Book, s: State, e: Event, k: nat): Book
    requires WellFormed(s) && Enabled(s, e) && k < SLOTS
  {
    match e
    case Call(_, _) => b
    case Recv(j) => if j == k then Taken(b, s.slots[k].client.req) else b
    case Dispatch => if s.disp.Reply? && s.disp.k == k then Told(b, s.slots[k].client, s.disp.status) else b
    case Work(j) => if j == k then Worked(b, s.slots[k].worker) else b
    case Complete(j, data) => if j == k then Came(b, data) else b
  }

  ghost function Kept(b: Book, s: State, events: seq<Event>, k: nat): Book
    requires WellFormed(s) && k < SLOTS
    decreases |events|
  {
    if events == [] || !Enabled(s, events[0]) then b
    else Kept(Note(b, s, events[0], k), Apply(s, events[0]), events[1..], k)
  }

  // The status of anything but a wait.
  function Verdict(req: Request, granted: bool): Status {
    if granted then OK else if req.Open? then ENOSPC else EINVAL
  }

  // -------------------------------------------------------------- invariants

  predicate Posting(d: Dispatcher) { d.PostFields? || d.SignalJob? }

  predicate Waiting(d: Dispatcher) { d.AwaitDone? || d.ReadResult? }

  predicate Owed(d: Dispatcher, c: Client) { d.Reply? && c.InService? && c.req.Wait? }

  predicate Mirrors(sl: Slot, b: Book) {
    b.open == sl.open && b.m2p == sl.m2p && b.buf == sl.buf && b.moved == sl.delivered
  }

  predicate IsJob(d: Dispatcher, m2p: bool, len: nat, timeout: nat, arm: Grant) {
    && m2p == arm.m2p
    && (if d.PostFields? then d.len == arm.len && BudgetOf(d.timeout) == arm.budget
        else len == arm.len && timeout == arm.budget)
  }

  predicate AreArms(outcomes: seq<Outcome>, arms: seq<Grant>) {
    forall i :: 0 <= i < |outcomes| && i < |arms| ==> outcomes[i].len == arms[i].len && outcomes[i].m2p == arms[i].m2p
  }

  // The job the worker has is the last arm granted.
  predicate ArmsAreAsked(d: Dispatcher, posted: nat, working: bool, m2p: bool, len: nat, timeout: nat, arms: seq<Grant>) {
    && |arms| == posted + One(Posting(d))
    && (Posting(d) || working ==> arms != [] && IsJob(d, m2p, len, timeout, arms[|arms| - 1]))
  }

  predicate WaitsAreAsked(d: Dispatcher, answers: seq<Answer>, waits: seq<nat>) {
    && |waits| == |answers| + One(Waiting(d))
    && (forall i :: 0 <= i < |answers| ==> answers[i].len == waits[i])
    && (Waiting(d) ==> d.len == waits[|waits| - 1])
  }

  predicate RepliesAreAnswers(d: Dispatcher, c: Client, answers: seq<Answer>, told: seq<Status>, granted: bool) {
    && |told| + One(Owed(d, c)) == |answers|
    && (forall i :: 0 <= i < |told| ==> told[i] == answers[i].res)
    && (Owed(d, c) ==> d.status == answers[|answers| - 1].res)
    && (c.InService? && !c.req.Wait? ==> if d.Reply? then d.status == Verdict(c.req, granted) else granted)
  }

  predicate SleepFits(res: Status, slept: nat, budget: nat) {
    slept <= budget && (res.OK? || (res.ETIMEOUT? && slept == budget))
  }

  predicate SleepsFit(outcomes: seq<Outcome>, arms: seq<Grant>, sleeps: seq<nat>, moves: seq<seq<byte>>) {
    && |sleeps| == |moves| == |outcomes|
    && (forall i :: 0 <= i < |outcomes| ==> moves[i] == outcomes[i].delivered)
    && (forall i :: 0 <= i < |outcomes| && i < |arms| ==> SleepFits(outcomes[i].res, sleeps[i], arms[i].budget))
  }

  predicate WorkerFits(w: Worker, timeout: nat, slept: nat) {
    && (w.TellArmed? ==> slept == 0)
    && (w.Poll? || w.Expire? || w.Sleep? ==> w.elapsed == slept <= timeout)
    && (w.Acknowledge? ==> slept <= timeout)
    && (w.Store? ==> SleepFits(w.res, slept, timeout))
  }

  predicate Tied(sl: Slot, d: Dispatcher, b: Book) {
    && Mirrors(sl, b) && AreArms(sl.outcomes, b.arms)
    && ArmsAreAsked(d, sl.arms, Working(sl), sl.m2p, sl.len, sl.timeout, b.arms)
    && WaitsAreAsked(d, sl.answers, b.waits)
    && RepliesAreAnswers(d, sl.client, sl.answers, b.told, b.granted)
    && SleepsFit(sl.outcomes, b.arms, b.sleeps, b.moves)
    && WorkerFits(sl.worker, sl.timeout, b.slept)
  }

  // ------------------------------------------------------------------- steps

  lemma WorkTies(sl: Slot, d: Dispatcher, b: Book)
    requires Counts(sl) && Talk(sl, d) && Budget(sl, d) && Tied(sl, d, b) && (sl.worker.AwaitJob? ==> sl.jobBit)
    ensures Tied(WorkStep(sl), d, Worked(b, sl.worker))
  {
    hide WorkStep, Worked;
    if sl.worker.Store? {
      StoreTies(sl, d, b);
    } else {
      WorkIsSeen(sl, b);
      SeenTies(sl, WorkStep(sl), d, b, Worked(b, sl.worker).slept);
    }
  }

  // All a step of the worker changes of what the book tells about.
  predicate Seen(sl: Slot, t: Slot, slept: nat) {
    && t.open == sl.open && t.m2p == sl.m2p && t.buf == sl.buf && t.len == sl.len && t.timeout == sl.timeout
    && t.delivered == sl.delivered && t.client == sl.client && t.arms == sl.arms
    && t.outcomes == sl.outcomes && t.answers == sl.answers
    && Working(t) == Working(sl) && WorkerFits(t.worker, sl.timeout, slept)
  }

  lemma AwaitJobIsSeen(sl: Slot, slept: nat)
    requires WorkerFits(sl.worker, sl.timeout, slept) && sl.worker.AwaitJob? && sl.jobBit
    ensures Seen(sl, DoAwaitJob(sl), slept)
  {
  }

  lemma TakeJobIsSeen(sl: Slot, slept: nat)
    requires WorkerFits(sl.worker, sl.timeout, slept) && sl.worker.TakeJob? && sl.job
    ensures Seen(sl, DoTakeJob(sl), slept)
  {
  }

  lemma ClearFlagsIsSeen(sl: Slot, slept: nat)
    requires WorkerFits(sl.worker, sl.timeout, slept) && sl.worker.ClearFlags?
    ensures Seen(sl, DoClearFlags(sl), slept)
  {
  }

  lemma StopStreamIsSeen(sl: Slot, slept: nat)
    requires WorkerFits(sl.worker, sl.timeout, slept) && sl.worker.StopStream?
    ensures Seen(sl, DoStopStream(sl), slept)
  {
  }

  lemma EnableStreamIsSeen(sl: Slot, slept: nat)
    requires WorkerFits(sl.worker, sl.timeout, slept) && sl.worker.EnableStream?
    ensures Seen(sl, DoEnableStream(sl), 0)
  {
  }

  lemma TellArmedIsSeen(sl: Slot, slept: nat)
    requires WorkerFits(sl.worker, sl.timeout, slept) && sl.worker.TellArmed?
    ensures Seen(sl, DoTellArmed(sl), slept)
  {
  }

  lemma PollIsSeen(sl: Slot, slept: nat)
    requires WorkerFits(sl.worker, sl.timeout, slept) && sl.worker.Poll?
    ensures Seen(sl, DoPoll(sl, sl.worker.elapsed), slept)
  {
  }

  lemma AcknowledgeIsSeen(sl: Slot, slept: nat)
    requires WorkerFits(sl.worker, sl.timeout, slept) && sl.worker.Acknowledge?
    ensures Seen(sl, DoAcknowledge(sl, sl.worker.genuine), slept)
  {
  }

  lemma SleepIsSeen(sl: Slot, slept: nat)
    requires WorkerFits(sl.worker, sl.timeout, slept) && sl.worker.Sleep? && sl.worker.elapsed < sl.timeout
    ensures Seen(sl, DoSleep(sl, sl.worker.elapsed), slept + 1)
  {
  }

  lemma TellDoneIsSeen(sl: Slot, slept: nat)
    requires WorkerFits(sl.worker, sl.timeout, slept) && sl.worker.TellDone?
    ensures Seen(sl, DoTellDone(sl), slept)
  {
  }

  lemma ExpireIsSeen(sl: Slot, slept: nat)
    requires WorkerFits(sl.worker, sl.timeout, slept) && sl.worker.Expire?
    ensures sl.worker.elapsed >= sl.timeout ==> Seen(sl, DoGiveUp(sl), slept)
    ensures Seen(sl, DoRest(sl, sl.worker.elapsed), slept)
  {
  }

  lemma WorkIsSeen(sl: Slot, b: Book)
    requires WorkerFits(sl.worker, sl.timeout, b.slept) && !sl.worker.Store?
    requires (sl.worker.AwaitJob? ==> sl.jobBit) && (sl.worker.TakeJob? ==> sl.job)
    requires sl.worker.Sleep? ==> sl.worker.elapsed < sl.timeout
    ensures Seen(sl, WorkStep(sl), Worked(b, sl.worker).slept)
    ensures Worked(b, sl.worker) == b.(slept := Worked(b, sl.worker).slept)
  {
    var slept := b.slept;
    hide DoAwaitJob, DoTakeJob, DoClearFlags, DoStopStream, DoEnableStream, DoTellArmed, DoPoll,
      DoAcknowledge, DoGiveUp, DoRest, DoSleep, DoTellDone, WorkerFits, Seen;
    match sl.worker
    case AwaitJob => AwaitJobIsSeen(sl, slept);
    case TakeJob => TakeJobIsSeen(sl, slept);
    case ClearFlags => ClearFlagsIsSeen(sl, slept);
    case StopStream => StopStreamIsSeen(sl, slept);
    case EnableStream => EnableStreamIsSeen(sl, slept);
    case TellArmed => TellArmedIsSeen(sl, slept);
    case Poll(_) => PollIsSeen(sl, slept);
    case Acknowledge(_) => AcknowledgeIsSeen(sl, slept);
    case Expire(_) => ExpireIsSeen(sl, slept);
    case Sleep(_) => SleepIsSeen(sl, slept);
    case TellDone => TellDoneIsSeen(sl, slept);
  }

  lemma SeenTies(sl: Slot, t: Slot, d: Dispatcher, b: Book, slept: nat)
    requires Seen(sl, t, slept) && Tied(sl, d, b)
    ensures Tied(t, d, b.(slept := slept))
  {
    hide Working, WorkerFits, AreArms, ArmsAreAsked, WaitsAreAsked, RepliesAreAnswers, SleepsFit;
  }

  lemma StoreTies(sl: Slot, d: Dispatcher, b: Book)
    requires Counts(sl) && Talk(sl, d) && Tied(sl, d, b) && sl.worker.Store?
    ensures Tied(WorkStep(sl), d, Worked(b, sl.worker))
  {
    var t := WorkStep(sl);
    assert !Posting(d) && |b.arms| == |sl.outcomes| + 1;
    hide Talk, Counts, WaitsAreAsked, RepliesAreAnswers, SleepFits;
  }

  lemma CompleteTies(sl: Slot, d: Dispatcher, b: Book, data: seq<byte>)
    requires Tied(sl, d, b) && |data| == XFER_MAX
    ensures Tied(CompleteStep(sl, data), d, Came(b, data))
  {
    hide AreArms, ArmsAreAsked, WaitsAreAsked, RepliesAreAnswers, SleepsFit, WorkerFits;
  }

  lemma CallTies(sl: Slot, d: Dispatcher, b: Book, req: Request)
    requires Talk(sl, d) && Tied(sl, d, b) && MayCall(sl.client, req)
    ensures Tied(sl.(client := Calling(req)), d, b)
  {
    hide AreArms, ArmsAreAsked, WaitsAreAsked, SleepsFit, WorkerFits;
  }

  // No job is under way unless the client waits for one, on an open slot.
  predicate Ready(sl: Slot) {
    && sl.client.Calling?
    && (if sl.client.req.Wait? then sl.open else !Working(sl))
    && |sl.outcomes| == if Working(sl) then sl.arms - 1 else sl.arms
  }

  lemma IsReady(sl: Slot)
    requires Counts(sl) && Talk(sl, Receive) && sl.client.Calling?
    ensures Ready(sl) && |sl.buf| == XFER_MAX
  {
  }

  lemma RecvTies(sl: Slot, k: nat, b: Book)
    requires Tied(sl, Receive, b) && Ready(sl) && |sl.buf| == XFER_MAX
    ensures var m := Accept(sl, k, sl.client.req); Tied(m.slot, m.disp, Taken(b, sl.client.req))
  {
    assert sl.client.Calling?;
    hide Tied, Taken, Ready, AcceptOpen, AcceptClose, AcceptLoad, AcceptArm, AcceptWait;
    match sl.client.req
    case Open(m2p) => OpenTies(sl, k, b, m2p);
    case Close => CloseTies(sl, k, b);
    case Load(offset, data) => LoadTies(sl, k, b, offset, data);
    case Arm(len, timeout) => ArmTies(sl, k, b, len, timeout);
    case Wait(len) => WaitTies(sl, k, b, len);
  }

  lemma OpenTies(sl: Slot, k: nat, b: Book, m2p: bool)
    requires Tied(sl, Receive, b) && Ready(sl) && sl.client == Calling(Open(m2p))
    ensures var m := AcceptOpen(sl.(client := InService(Open(m2p))), k, m2p); Tied(m.slot, m.disp, Taken(b, Open(m2p)))
  {
    hide WorkerFits, SleepFits;
    hide AreArms, SleepsFit;
  }

  lemma CloseTies(sl: Slot, k: nat, b: Book)
    requires Tied(sl, Receive, b) && Ready(sl) && sl.client == Calling(Close)
    ensures var m := AcceptClose(sl.(client := InService(Close)), k); Tied(m.slot, m.disp, Taken(b, Close))
  {
    hide WorkerFits, SleepFits;
    hide AreArms, SleepsFit;
  }

  lemma LoadTies(sl: Slot, k: nat, b: Book, offset: nat, data: seq<byte>)
    requires Tied(sl, Receive, b) && Ready(sl) && |sl.buf| == XFER_MAX && sl.client == Calling(Load(offset, data))
    ensures var m := AcceptLoad(sl.(client := InService(Load(offset, data))), k, offset, data); Tied(m.slot, m.disp, Taken(b, Load(offset, data)))
  {
    hide WorkerFits, SleepFits;
    if Grantable(sl.open, Load(offset, data)) {
      assert Overwrite(sl.buf, offset, data) == Patched(sl.buf, offset, data);
    }
    hide AreArms, SleepsFit, Overwrite, Patched;
  }

  lemma ArmTies(sl: Slot, k: nat, b: Book, len: nat, timeout: nat)
    requires Tied(sl, Receive, b) && Ready(sl) && sl.client == Calling(Arm(len, timeout))
    ensures var m := AcceptArm(sl.(client := InService(Arm(len, timeout))), k, len, timeout); Tied(m.slot, m.disp, Taken(b, Arm(len, timeout)))
  {
    hide WorkerFits, SleepFits;
  }

  lemma WaitTies(sl: Slot, k: nat, b: Book, len: nat)
    requires Tied(sl, Receive, b) && Ready(sl) && sl.client == Calling(Wait(len))
    ensures var m := AcceptWait(sl.(client := InService(Wait(len))), k, len); Tied(m.slot, m.disp, Taken(b, Wait(len)))
  {
    hide WorkerFits, SleepFits;
    hide AreArms, SleepsFit;
  }

  lemma PostTies(sl: Slot, d: Dispatcher, b: Book)
    requires Counts(sl) && Talk(sl, d) && Tied(sl, d, b) && (Posting(d) || (d.AwaitArmed? && sl.armedBit))
    ensures var m := DispatchMove(sl, d); Tied(m.slot, m.disp, b)
  {
    hide AreArms, SleepsFit;
  }

  lemma AnswerTies(sl: Slot, d: Dispatcher, b: Book)
    requires Counts(sl) && Talk(sl, d) && Tied(sl, d, b) && !d.Receive? && !Posting(d) && !d.AwaitArmed?
    requires d.AwaitDone? ==> sl.doneBit
    ensures var m := DispatchMove(sl, d);
      Tied(m.slot, m.disp, if d.Reply? then Told(b, sl.client, d.status) else b)
  {
    hide AreArms, SleepsFit, WorkerFits;
  }

  predicate AllTied(s: State, k: nat, b: Book)
    requires WellFormed(s) && k < SLOTS
  {
    Tied(s.slots[k], Turn(s.disp, k), b)
  }

  lemma MessageTies(sl: Slot, k: nat, b: Book)
    requires SlotInv(sl, Receive) && Tied(sl, Receive, b) && sl.client.Calling?
    ensures var m := Accept(sl, k, sl.client.req); Tied(m.slot, m.disp, Taken(b, sl.client.req))
  {
    hide Tied, Taken, Accept;
    IsReady(sl);
    RecvTies(sl, k, b);
  }

  lemma DispatchTies(sl: Slot, d: Dispatcher, b: Book)
    requires SlotInv(sl, d) && Tied(sl, d, b) && !d.Receive?
    requires (d.AwaitArmed? ==> sl.armedBit) && (d.AwaitDone? ==> sl.doneBit)
    ensures var m := DispatchMove(sl, d);
      Tied(m.slot, m.disp, if d.Reply? then Told(b, sl.client, d.status) else b)
  {
    hide Tied, Told, DispatchMove, Counts, Talk;
    if Posting(d) || d.AwaitArmed? {
      PostTies(sl, d, b);
    } else {
      AnswerTies(sl, d, b);
    }
  }

  lemma WorkerTies(sl: Slot, d: Dispatcher, b: Book)
    requires SlotInv(sl, d) && Tied(sl, d, b) && (sl.worker.AwaitJob? ==> sl.jobBit)
    ensures Tied(WorkStep(sl), d, Worked(b, sl.worker))
  {
    hide Tied, WorkStep, Worked, Counts, Talk, Budget;
    WorkTies(sl, d, b);
  }

  lemma ClientTies(sl: Slot, d: Dispatcher, b: Book, req: Request)
    requires SlotInv(sl, d) && Tied(sl, d, b) && MayCall(sl.client, req)
    ensures Tied(sl.(client := Calling(req)), d, b)
  {
    hide Tied, Talk;
    CallTies(sl, d, b, req);
  }

  lemma StepTies(s: State, e: Event, k: nat, b: Book)
    requires Inv(s) && Enabled(s, e) && k < SLOTS && AllTied(s, k, b)
    ensures AllTied(Apply(s, e), k, Note(b, s, e, k))
  {
    var sl, d := s.slots[k], Turn(s.disp, k);
    assert SlotInv(sl, d);
    hide SlotInv, Tied, WorkStep, CompleteStep, Accept, DispatchMove, Taken, Told, Worked, Came;
    match e
    case Call(j, req) => if j == k { ClientTies(sl, d, b, req); }
    case Recv(j) => if j == k { MessageTies(sl, k, b); }
    case Dispatch => if s.disp.k == k { DispatchTies(sl, d, b); }
    case Work(j) => if j == k { WorkerTies(sl, d, b); }
    case Complete(j, data) => if j == k { CompleteTies(sl, d, b, data); }
  }

  lemma {:induction false} RunTies(s: State, events: seq<Event>, t: State, k: nat, b: Book)
    requires Inv(s) && Run(s, events, t) && k < SLOTS && AllTied(s, k, b)
    ensures Inv(t)
    ensures AllTied(t, k, Kept(b, s, events, k))
    decreases |events|
  {
    assert WellFormed(s);
    hide Inv, Enabled, Apply, AllTied, Note;
    if events != [] {
      StepKeeps(s, events[0]);
      StepTies(s, events[0], k, b);
      RunTies(Apply(s, events[0]), events[1..], t, k, Note(b, s, events[0], k));
    }
  }

  lemma BlankTied(sl: Slot, b: Book)
    requires !sl.open && !sl.m2p && sl.worker.AwaitJob? && sl.client.Idle? && !sl.jobBit && sl.arms == 0
    requires sl.outcomes == [] && sl.answers == [] && !b.open && !b.m2p && b.buf == sl.buf && b.moved == sl.delivered
    requires b.arms == [] && b.waits == [] && b.told == [] && b.sleeps == [] && b.moves == []
    ensures Tied(sl, Receive, b)
  {
  }

  lemma InitTied(k: nat)
    requires k < SLOTS
    ensures AllTied(Init(), k, Blank())
  {
    hide Tied;
    BlankTied(FreshSlot(), Blank());
  }

  lemma FromPowerUp(events: seq<Event>, s: State, k: nat)
    requires WellFormed(s) && Run(Init(), events, s) && k < SLOTS
    ensures Inv(s) && AllTied(s, k, Kept(Blank(), Init(), events, k))
  {
    hide Inv, AllTied, Run, Blank, Init;
    InitKeeps();
    InitTied(k);
    RunTies(Init(), events, s, k, Blank());
  }

  // ------------------------------------------------------------- the answers

  // In every run the n-th wait of a slot is told the result of the n-th ARM that
  // was granted: success, or a time-out after exactly the time that ARM asked
  // for.  A genuine success brings what the transfer moved, as much as both ARM
  // and WAIT asked for, and nothing on a slot opened for sending.
  lemma WaitsAnswerTheirRequests(events: seq<Event>, s: State, k: nat, n: nat)
    requires WellFormed(s) && Run(Init(), events, s) && k < SLOTS && n < |Kept(Blank(), Init(), events, k).told|
    ensures var b, sl := Kept(Blank(), Init(), events, k), s.slots[k];
      && n < |b.arms| && n < |b.waits| && n < |b.sleeps| && n < |b.moves| && n < |sl.outcomes| && n < |sl.answers|
      && |b.moves[n]| == XFER_MAX && b.arms[n].len <= XFER_MAX
      && b.told[n] == sl.outcomes[n].res
      && (b.told[n].OK? || (b.told[n].ETIMEOUT? && b.sleeps[n] == b.arms[n].budget))
      && b.sleeps[n] <= b.arms[n].budget
      && (b.told[n].OK? && sl.outcomes[n].genuine ==>
            sl.answers[n].data == if b.arms[n].m2p then [] else b.moves[n][..Min(b.waits[n], b.arms[n].len)])
  {
    FromPowerUp(events, s, k);
    var sl := s.slots[k];
    assert SlotInv(sl, Turn(s.disp, k));
    assert Matches(sl.answers[n], sl.outcomes[n]);
  }

  // Any other request is answered OK exactly when it can be granted, an OPEN
  // that cannot with ENOSPC and the rest with EINVAL; a wait is never refused.
  lemma OthersAreJudged(events: seq<Event>, s: State, k: nat)
    requires WellFormed(s) && Run(Init(), events, s) && k < SLOTS && s.disp.Reply? && s.disp.k == k
    ensures var b, c := Kept(Blank(), Init(), events, k), s.slots[k].client;
      c.InService? && (if c.req.Wait? then |b.waits| == |b.told| + 1 else s.disp.status == Verdict(c.req, b.granted))
  {
    FromPowerUp(events, s, k);
    assert SlotInv(s.slots[k], Turn(s.disp, k));
  }

  // While a worker is polling, the time it may still sleep is what is left of the
  // last ARM's.
  lemma BudgetIsAsked(events: seq<Event>, s: State, k: nat)
    requires WellFormed(s) && Run(Init(), events, s) && k < SLOTS && s.slots[k].worker.Sleep?
    ensures var b := Kept(Blank(), Init(), events, k); b.arms != [] && b.slept < b.arms[|b.arms| - 1].budget
  {
    FromPowerUp(events, s, k);
    assert SlotInv(s.slots[k], Turn(s.disp, k));
  }
}
