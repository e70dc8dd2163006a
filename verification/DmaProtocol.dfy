// The DMA service of the Linum board: one dispatcher thread, one worker thread
// for every stream slot, clients, and the stream hardware, as one step system.
//
// Kernel contract: a signal sets a sticky bit; a wait blocks until one of its
// bits is set and takes only those; a call hands one message to the dispatcher
// and blocks until the reply.  Hardware: an enabled stream may complete at any
// time or never; completion raises the flag and disables the stream.
module DmaProtocol {

  const SLOTS: nat := 3
  const XFER_MAX: nat := 16
  const DEFAULT_WAIT_MS: nat := 1000

  type byte = x: int | 0 <= x < 256

  datatype Status = OK | EINVAL | ENOSPC | ETIMEOUT

  datatype Request =
    | Open(m2p: bool)
    | Close
    | Load(offset: nat, data: seq<byte>)
    | Arm(len: nat, timeout: nat)
    | Wait(len: nat)

  // What a client of a slot is doing.  It alternates arm and wait, and opens,
  // closes and loads only while nothing is armed.
  datatype Client = Idle | Armed | Calling(req: Request) | InService(req: Request)

  datatype Worker =
    | AwaitJob                        // blocked on the JOB bit
    | TakeJob                         // JOB taken, s->job not yet looked at
    | ClearFlags                      // about to write LIFCR
    | StopStream                      // about to write CR = 0
    | EnableStream                    // registers programmed, about to set EN
    | TellArmed                       // about to signal ARMED
    | Poll(elapsed: nat)              // about to read LISR
    | Acknowledge(genuine: bool)      // flag seen, about to write LIFCR
    | Expire(elapsed: nat)            // flag not seen, about to test the budget
    | Sleep(elapsed: nat)
    | Store(res: Status, genuine: bool)
    | TellDone                        // about to signal DONE

  // The result a worker recorded for one arm, for which length and direction,
  // and the bytes the stream had moved by then.  It is genuine when the
  // completion flag the worker saw was raised by this arm's own enable.
  datatype Outcome = Outcome(res: Status, genuine: bool, clean: bool, len: nat, m2p: bool, delivered: seq<byte>)

  // What one WAIT returned.
  datatype Answer = Answer(res: Status, len: nat, data: seq<byte>)

  datatype Slot = Slot(
    open: bool, m2p: bool, buf: seq<byte>,
    job: bool, len: nat, timeout: nat, result: Status,
    jobBit: bool, armedBit: bool, doneBit: bool,
    enabled: bool, flag: bool,
    worker: Worker, client: Client,
    // History: arms posted, stream enables, the last enable that completed and
    // what it delivered, DONE signals sent and taken, results and answers, and
    // whether the stream was off when the last arm cleared its flags.
    arms: nat, enables: nat, completed: nat, delivered: seq<byte>,
    dones: nat, taken: nat, outcomes: seq<Outcome>, answers: seq<Answer>, cleanStart: bool)

  datatype Dispatcher =
    | Receive
    | PostFields(k: nat, len: nat, timeout: nat)
    | SignalJob(k: nat)
    | AwaitArmed(k: nat)
    | AwaitDone(k: nat, len: nat)
    | ReadResult(k: nat, len: nat)
    | Reply(k: nat, status: Status)

  datatype State = State(disp: Dispatcher, slots: seq<Slot>, replies: nat)

  datatype Event =
    | Call(k: nat, req: Request)
    | Recv(k: nat)
    | Dispatch
    | Work(k: nat)
    | Complete(k: nat, data: seq<byte>)

  predicate WellFormed(s: State) {
    && |s.slots| == SLOTS
    && (!s.disp.Receive? ==> s.disp.k < SLOTS)
  }

  function Min(a: nat, b: nat): nat { if a <= b then a else b }

  // ------------------------------------------------------------------- steps

  predicate MayCall(c: Client, req: Request) {
    if req.Wait? then c.Armed? else c.Idle?
  }

  predicate Enabled(s: State, e: Event)
    requires WellFormed(s)
  {
    match e
    case Call(k, req) => k < SLOTS && MayCall(s.slots[k].client, req)
    case Recv(k) => k < SLOTS && s.disp.Receive? && s.slots[k].client.Calling?
    case Dispatch =>
      && !s.disp.Receive?
      && (s.disp.AwaitArmed? ==> s.slots[s.disp.k].armedBit)
      && (s.disp.AwaitDone? ==> s.slots[s.disp.k].doneBit)
    case Work(k) => k < SLOTS && (s.slots[k].worker.AwaitJob? ==> s.slots[k].jobBit)
    case Complete(k, data) => k < SLOTS && s.slots[k].enabled && |data| == XFER_MAX
  }

  function Apply(s: State, e: Event): (t: State)
    requires WellFormed(s) && Enabled(s, e)
    ensures WellFormed(t)
  {
    match e
    case Call(k, req) => Put(s, k, s.slots[k].(client := Calling(req)))
    case Recv(k) => PutMove(s, k, Accept(s.slots[k], k, s.slots[k].client.req))
    case Dispatch => PutMove(s, s.disp.k, DispatchMove(s.slots[s.disp.k], s.disp))
    case Work(k) => Put(s, k, WorkStep(s.slots[k]))
    case Complete(k, data) => Put(s, k, CompleteStep(s.slots[k], data))
  }

  function Put(s: State, k: nat, sl: Slot): (t: State)
    requires WellFormed(s) && k < SLOTS
    ensures WellFormed(t)
  {
    s.(slots := s.slots[k := sl])
  }

  // What the dispatcher makes of the slot it serves, and where it goes next.
  datatype Move = Move(slot: Slot, disp: Dispatcher)

  function PutMove(s: State, k: nat, m: Move): (t: State)
    requires WellFormed(s) && k < SLOTS && (!m.disp.Receive? ==> m.disp.k == k)
    ensures WellFormed(t)
  {
    Put(s, k, m.slot).(disp := m.disp, replies := s.replies + if m.disp.Receive? then 1 else 0)
  }

  // The dispatcher takes a message and runs the checks of its handler.
  function Accept(sl0: Slot, k: nat, req: Request): (m: Move)
    ensures !m.disp.Receive? && m.disp.k == k
  {
    var sl := sl0.(client := InService(req));
    match req
    case Open(m2p) => AcceptOpen(sl, k, m2p)
    case Close => AcceptClose(sl, k)
    case Load(offset, data) => AcceptLoad(sl, k, offset, data)
    case Arm(len, timeout) => AcceptArm(sl, k, len, timeout)
    case Wait(len) => AcceptWait(sl, k, len)
  }

  function AcceptOpen(sl: Slot, k: nat, m2p: bool): Move {
    if sl.open then Move(sl, Reply(k, ENOSPC)) else Move(sl.(open := true, m2p := m2p), Reply(k, OK))
  }

  function AcceptClose(sl: Slot, k: nat): Move {
    if !sl.open then Move(sl, Reply(k, EINVAL)) else Move(sl.(open := false), Reply(k, OK))
  }

  function AcceptLoad(sl: Slot, k: nat, offset: nat, data: seq<byte>): Move {
    if !sl.open || |data| == 0 || offset + |data| > XFER_MAX || |sl.buf| != XFER_MAX then
      Move(sl, Reply(k, EINVAL))
    else
      Move(sl.(buf := Overwrite(sl.buf, offset, data)), Reply(k, OK))
  }

  function Overwrite(buf: seq<byte>, offset: nat, data: seq<byte>): (r: seq<byte>)
    requires offset + |data| <= |buf|
    ensures |r| == |buf|
  {
    buf[..offset] + data + buf[offset + |data|..]
  }

  function AcceptArm(sl: Slot, k: nat, len: nat, timeout: nat): Move {
    if !sl.open || len == 0 || len > XFER_MAX then Move(sl, Reply(k, EINVAL))
    else Move(sl, PostFields(k, len, timeout))
  }

  function AcceptWait(sl: Slot, k: nat, len: nat): Move {
    if !sl.open then Move(sl, Reply(k, EINVAL)) else Move(sl, AwaitDone(k, len))
  }

  // The next step of a dispatcher that is not blocked.
  function DispatchMove(sl: Slot, d: Dispatcher): (m: Move)
    requires !d.Receive?
    ensures !m.disp.Receive? ==> m.disp.k == d.k
    ensures m.disp.Receive? <==> d.Reply?
  {
    match d
    case PostFields(k, len, timeout) => MovePostFields(sl, k, len, timeout)
    case SignalJob(k) => MoveSignalJob(sl, k)
    case AwaitArmed(k) => Move(sl.(armedBit := false), Reply(k, OK))
    case AwaitDone(k, len) => MoveDone(sl, k, len)
    case ReadResult(k, len) => MoveReadResult(sl, k, len)
    case Reply(k, status) => MoveReply(sl, status)
  }

  function MovePostFields(sl: Slot, k: nat, len: nat, timeout: nat): Move {
    var budget := if timeout != 0 then timeout else DEFAULT_WAIT_MS;
    Move(sl.(len := len, timeout := budget, job := true), SignalJob(k))
  }

  function MoveSignalJob(sl: Slot, k: nat): Move {
    Move(sl.(jobBit := true, arms := sl.arms + 1), AwaitArmed(k))
  }

  function MoveDone(sl: Slot, k: nat, len: nat): Move {
    Move(sl.(doneBit := false, taken := sl.taken + 1), ReadResult(k, len))
  }

  function MoveReadResult(sl: Slot, k: nat, len: nat): Move {
    var data := if sl.m2p then [] else sl.buf[..Min(Min(len, sl.len), |sl.buf|)];
    Move(sl.(answers := sl.answers + [Answer(sl.result, len, data)]), Reply(k, sl.result))
  }

  function MoveReply(sl: Slot, status: Status): Move {
    var next := if sl.client.InService? && sl.client.req.Arm? && status.OK? then Armed else Idle;
    Move(sl.(client := next), Receive)
  }

  function WorkStep(sl: Slot): Slot {
    match sl.worker
    case AwaitJob => DoAwaitJob(sl)
    case TakeJob => DoTakeJob(sl)
    case ClearFlags => DoClearFlags(sl)
    case StopStream => DoStopStream(sl)
    case EnableStream => DoEnableStream(sl)
    case TellArmed => DoTellArmed(sl)
    case Poll(e) => DoPoll(sl, e)
    case Acknowledge(g) => DoAcknowledge(sl, g)
    case Expire(e) => if sl.timeout != 0 && e >= sl.timeout then DoGiveUp(sl) else DoRest(sl, e)
    case Sleep(e) => DoSleep(sl, e)
    case Store(res, g) => DoStore(sl, res, g)
    case TellDone => DoTellDone(sl)
  }

  function DoAwaitJob(sl: Slot): Slot { sl.(jobBit := false, worker := TakeJob) }

  function DoTakeJob(sl: Slot): Slot {
    if sl.job then sl.(worker := ClearFlags) else sl.(result := EINVAL, worker := TellDone)
  }

  function DoClearFlags(sl: Slot): Slot {
    sl.(flag := false, worker := StopStream, cleanStart := !sl.enabled)
  }

  function DoStopStream(sl: Slot): Slot { sl.(enabled := false, worker := EnableStream) }

  function DoEnableStream(sl: Slot): Slot {
    sl.(enabled := true, enables := sl.enables + 1, worker := TellArmed)
  }

  function DoTellArmed(sl: Slot): Slot { sl.(armedBit := true, worker := Poll(0)) }

  function DoPoll(sl: Slot, elapsed: nat): Slot {
    if sl.flag then sl.(worker := Acknowledge(sl.completed == sl.enables))
    else sl.(worker := Expire(elapsed))
  }

  function DoAcknowledge(sl: Slot, genuine: bool): Slot { sl.(flag := false, worker := Store(OK, genuine)) }

  function DoGiveUp(sl: Slot): Slot { sl.(worker := Store(ETIMEOUT, true)) }

  function DoRest(sl: Slot, elapsed: nat): Slot { sl.(worker := Sleep(elapsed)) }

  function DoSleep(sl: Slot, elapsed: nat): Slot { sl.(worker := Poll(elapsed + 1)) }

  function DoStore(sl: Slot, res: Status, genuine: bool): Slot {
    sl.(result := res, worker := TellDone,
        outcomes := sl.outcomes + [Outcome(res, genuine, sl.cleanStart, sl.len, sl.m2p, sl.delivered)])
  }

  function DoTellDone(sl: Slot): Slot { sl.(doneBit := true, dones := sl.dones + 1, worker := AwaitJob) }

  function CompleteStep(sl: Slot, data: seq<byte>): Slot
    requires |data| == XFER_MAX
  {
    var moved := if sl.m2p then sl.buf else data;
    sl.(enabled := false, flag := true, completed := sl.enables, delivered := moved, buf := moved)
  }

  // -------------------------------------------------------------------- runs

  function FreshSlot(): Slot {
    Slot(false, false, seq(XFER_MAX, _ => 0), false, 0, 0, OK, false, false, false, false, false,
         AwaitJob, Idle, 0, 0, 0, seq(XFER_MAX, _ => 0), 0, 0, [], [], true)
  }

  function Init(): (s: State)
    ensures WellFormed(s)
  {
    State(Receive, seq(SLOTS, _ => FreshSlot()), 0)
  }

  // Some interleaving of steps leads from s to t.
  ghost predicate Run(s: State, events: seq<Event>, t: State)
    requires WellFormed(s)
    decreases |events|
  {
    if events == [] then s == t
    else Enabled(s, events[0]) && Run(Apply(s, events[0]), events[1..], t)
  }

  ghost predicate Reachable(s: State) {
    WellFormed(s) && exists events :: Run(Init(), events, s)
  }
}
