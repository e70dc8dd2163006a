// Double-buffered scan-out of the EV-function board: the display server presents
// a buffer, the stream controller reads it frame after frame, and an interrupt
// handler re-arms the channel at the end of each frame.
//
// The handler is atomic with respect to the presenter.  Unless `glitches` is
// set, nothing but the end of a transfer raises its line.  A wait may time out
// whenever it is blocked, and an interrupt may come late or never.
module ScanOut {

  datatype Buffer = A | B

  datatype Memory = Memory(a: int, b: int)

  function At(m: Memory, b: Buffer): int { if b.A? then m.a else m.b }

  function Painted(m: Memory, b: Buffer, img: int): Memory {
    if b.A? then m.(a := img) else m.(b := img)
  }

  function Other(b: Buffer): Buffer { if b.A? then B else A }

  // What a client passes to PRESENT: one of the two buffers by its cached or
  // its uncached address, or something else.
  datatype Pointer = Null | Cached(buffer: Buffer) | Uncached(buffer: Buffer) | Elsewhere

  datatype Request = Present(fb: Pointer) | Flip

  datatype Status = OK | EINVAL

  // Where the display server stands.
  datatype Place =
    | Idle
    | Enter(req: Request)
    | CheckStart(b: Buffer)
    | Attach(b: Buffer)
    | EnableLine(b: Buffer)
    | Abort(b: Buffer)
    | Program(b: Buffer)
    | TurnOn(b: Buffer)
    | StartChannel(b: Buffer)
    | Settle(b: Buffer)
    | CheckPresent(b: Buffer)
    | Publish(b: Buffer)
    | Drain(b: Buffer)
    | Await(b: Buffer)
    | Return(status: Status)

  // The display server; the other fields record its replies, and what it was
  // asked for last and with which buffer in front.
  datatype Server = Server(place: Place, front: Buffer, dpiOn: bool,
                           lastOk: bool, everOk: bool, req: Request, was: Buffer)

  // What presenter and handler share.
  datatype Driver = Driver(fbOn: bool, fb: Buffer, irqBound: bool, notifValid: bool, notif: bool)

  // The descriptor in memory; n is the number of the published frame it shows.
  datatype Descriptor = Descriptor(valid: bool, sar: Buffer, n: nat)

  // A scan is torn when the buffer it reads is written meanwhile.
  datatype Channel = Stopped | Fetching | Scanning(sar: Buffer, n: nat, img: int, torn: bool)

  datatype Hardware = Hardware(lli: Descriptor, chan: Channel, tfrDone: bool)

  // One buffer made visible to the re-arm handler, with the image it held.
  datatype Frame = Frame(b: Buffer, img: int)

  datatype Scan = Scan(n: nat, img: int, torn: bool)

  // What was published, and what the panel received.
  datatype History = History(published: seq<Frame>, shown: seq<Scan>)

  datatype Board = Board(glitches: bool, ready: bool, psram: bool)

  datatype State = State(board: Board, srv: Server, drv: Driver, hw: Hardware, mem: Memory, log: History)

  datatype Event =
    | Call(req: Request)
    | Step(succeeds: bool)
    | Timeout
    | Interrupt
    | Fetch
    | Finish
    | Paint(img: int)

  // A client paints the back buffer when its last present succeeded, or while
  // no present ever has.
  predicate MayPaint(s: State) {
    s.srv.place.Idle? && s.board.ready && (s.srv.lastOk || !s.srv.everOk)
  }

  predicate Enabled(s: State, e: Event) {
    match e
    case Call(req) => s.srv.place.Idle?
    case Step(succeeds) => !s.srv.place.Idle? && (s.srv.place.Await? ==> s.drv.notif)
    case Timeout => s.srv.place.Await?
    case Interrupt => s.drv.irqBound && (s.hw.tfrDone || s.board.glitches)
    case Fetch => s.hw.chan.Fetching? && s.hw.lli.valid
    case Finish => s.hw.chan.Scanning?
    case Paint(img) => MayPaint(s)
  }

  function Apply(s: State, e: Event): State
    requires Enabled(s, e)
  {
    match e
    case Call(req) => s.(srv := s.srv.(place := Enter(req), req := req, was := s.srv.front))
    case Step(succeeds) => PresenterStep(s, succeeds)
    case Timeout => Go(s, Return(EINVAL))
    case Interrupt => Rearm(s)
    case Fetch => DoFetch(s)
    case Finish => DoFinish(s)
    case Paint(img) => DoPaint(s, img)
  }

  function Go(s: State, place: Place): State { s.(srv := s.srv.(place := place)) }

  function PresenterStep(s: State, succeeds: bool): State
    requires !s.srv.place.Idle?
  {
    match s.srv.place
    case Enter(req) => DoEnter(s, req)
    case CheckStart(b) => DoCheckStart(s, b, succeeds)
    case Attach(b) => DoAttach(s, b, succeeds)
    case EnableLine(b) => DoEnableLine(s, b, succeeds)
    case Abort(b) => DoAbort(s, b)
    case Program(b) => DoProgram(s, b)
    case TurnOn(b) => DoTurnOn(s, b)
    case StartChannel(b) => DoStartChannel(s, b)
    case Settle(b) => DoSettle(s)
    case CheckPresent(b) => DoCheckPresent(s, b)
    case Publish(b) => DoPublish(s, b, Drain(b))
    case Drain(b) => DoDrain(s, Await(b))
    case Await(b) => DoDrain(s, Return(OK))
    case Return(status) => DoReturn(s, status)
  }

  // Which buffer a request names.
  datatype Choice = None | Some(b: Buffer)

  function Named(s: State, req: Request): Choice {
    match req
    case Flip => Some(Other(s.srv.front))
    case Present(Cached(b)) => Some(b)
    case Present(Uncached(b)) => Some(b)
    case Present(_) => None
  }

  function DoEnter(s: State, req: Request): State {
    var c := Named(s, req);
    if !s.board.ready || c.None? then Go(s, Return(EINVAL))
    else
      var next := if !s.board.psram then Return(OK) else if !s.srv.dpiOn then CheckStart(c.b) else CheckPresent(c.b);
      s.(srv := s.srv.(front := c.b, place := next))
  }

  function DoCheckStart(s: State, b: Buffer, dsiReady: bool): State {
    if s.drv.fbOn then Go(s, Settle(b))
    else if !dsiReady then Go(s, Return(EINVAL))
    else DoPublish(s, b, Attach(b))
  }

  function DoAttach(s: State, b: Buffer, succeeds: bool): State {
    if s.drv.irqBound then Go(s, Abort(b))
    else if !succeeds then Go(s, Return(EINVAL))
    else Go(s.(drv := s.drv.(notifValid := true)), EnableLine(b))
  }

  function DoEnableLine(s: State, b: Buffer, succeeds: bool): State {
    if !succeeds then Go(s, Return(EINVAL))
    else Go(s.(drv := s.drv.(irqBound := true)), Abort(b))
  }

  function DoAbort(s: State, b: Buffer): State {
    Go(s.(hw := s.hw.(chan := Stopped, tfrDone := false)), Program(b))
  }

  function DoProgram(s: State, b: Buffer): State {
    Go(s.(hw := s.hw.(lli := Descriptor(true, b, Last(s)))), TurnOn(b))
  }

  function DoTurnOn(s: State, b: Buffer): State {
    Go(s.(drv := s.drv.(fbOn := true)), StartChannel(b))
  }

  function DoStartChannel(s: State, b: Buffer): State {
    Go(s.(hw := s.hw.(chan := Fetching, tfrDone := false)), Settle(b))
  }

  function DoSettle(s: State): State {
    s.(srv := s.srv.(dpiOn := true, place := Return(OK)))
  }

  function DoCheckPresent(s: State, b: Buffer): State {
    if !s.drv.fbOn || !s.drv.notifValid then Go(s, Return(EINVAL)) else Go(s, Publish(b))
  }

  // g_fb = fb.
  function DoPublish(s: State, b: Buffer, next: Place): State {
    var log := s.log.(published := s.log.published + [Frame(b, At(s.mem, b))]);
    Go(s.(drv := s.drv.(fb := b), log := log), next)
  }

  function DoDrain(s: State, next: Place): State {
    Go(s.(drv := s.drv.(notif := false)), next)
  }

  function DoReturn(s: State, status: Status): State {
    s.(srv := s.srv.(place := Idle, lastOk := status.OK?, everOk := s.srv.everOk || status.OK?))
  }

  // The number of the frame g_fb shows.
  function Last(s: State): nat {
    if s.log.published == [] then 0 else |s.log.published| - 1
  }

  // The interrupt handler, whole.
  function Rearm(s: State): State {
    if !s.drv.fbOn then s
    else
      var hw := if s.hw.tfrDone then Hardware(Descriptor(true, s.drv.fb, Last(s)), Fetching, false) else s.hw;
      s.(hw := hw, drv := s.drv.(notif := true))
  }

  function DoFetch(s: State): State {
    var lli := s.hw.lli;
    s.(hw := s.hw.(lli := lli.(valid := false), chan := Scanning(lli.sar, lli.n, At(s.mem, lli.sar), false)))
  }

  function DoFinish(s: State): State
    requires s.hw.chan.Scanning?
  {
    var chan := s.hw.chan;
    s.(hw := s.hw.(chan := Stopped, tfrDone := true),
       log := s.log.(shown := s.log.shown + [Scan(chan.n, chan.img, chan.torn)]))
  }

  function DoPaint(s: State, img: int): State {
    var b, chan := Other(s.srv.front), s.hw.chan;
    var chan' := if chan.Scanning? && chan.sar == b then chan.(torn := true) else chan;
    s.(mem := Painted(s.mem, b, img), hw := s.hw.(chan := chan'))
  }

  // Power-up: the channel is stopped; a completion may be left pending.
  predicate Initial(s: State) {
    && s.srv.place.Idle? && !s.srv.dpiOn && !s.srv.lastOk && !s.srv.everOk
    && !s.drv.fbOn && !s.drv.irqBound && !s.drv.notifValid
    && s.hw.chan.Stopped? && s.log == History([], [])
  }

  ghost predicate Run(s: State, events: seq<Event>, t: State)
    decreases |events|
  {
    if events == [] then s == t
    else Enabled(s, events[0]) && Run(Apply(s, events[0]), events[1..], t)
  }
}

// What every run of the display service keeps, and what follows for the panel.
module ScanSafety {
  import opened ScanOut

  // Frame n still is in its buffer, as it was published.
  predicate Intact(m: Memory, published: seq<Frame>, n: nat) {
    n < |published| && At(m, published[n].b) == published[n].img
  }

  // The channel is at the frame published last.
  predicate Current(s: State) {
    && (s.hw.chan.Fetching? ==> s.hw.lli.n == Last(s))
    && (s.hw.chan.Scanning? ==> s.hw.chan.n == Last(s))
  }

  predicate Starting(p: Place) {
    p.Attach? || p.EnableLine? || p.Abort? || p.Program? || p.TurnOn?
  }

  predicate Flags(s: State) {
    var p := s.srv.place;
    && (s.drv.fbOn ==> s.drv.irqBound && s.drv.notifValid && s.board.psram && s.board.ready)
    && (s.drv.fbOn <==> s.srv.dpiOn || p.StartChannel? || p.Settle?)
    && (p.StartChannel? || p.Settle? ==> !s.srv.dpiOn)
    && (Starting(p) || p.CheckStart? ==> !s.drv.fbOn && s.board.psram && s.board.ready)
    && (p.CheckPresent? || p.Publish? || p.Drain? || p.Await? ==> s.srv.dpiOn)
    && (!p.Idle? && !p.Return? && !p.Enter? ==> s.srv.front == p.b)
    && ((s.srv.everOk || p == Return(OK)) && s.board.psram ==> s.drv.fbOn)
    && (s.drv.fbOn ==> s.srv.everOk || p.StartChannel? || p.Settle? || p == Return(OK))
    && (p.Abort? || p.Program? || p.TurnOn? ==> s.drv.irqBound)
    && (s.drv.irqBound || p.EnableLine? ==> s.drv.notifValid)
    && (s.srv.lastOk ==> s.srv.everOk)
  }

  // The channel reads frames that are still as they were published.
  predicate Streaming(s: State) {
    var p, chan, lli, published := s.srv.place, s.hw.chan, s.hw.lli, s.log.published;
    && (s.drv.fbOn || Starting(p) ==> Intact(s.mem, published, Last(s)) && published[Last(s)].b == s.drv.fb)
    && (!s.drv.fbOn || p.StartChannel? || s.hw.tfrDone ==> chan.Stopped?)
    && (p.Program? || p.TurnOn? || p.StartChannel? ==> !s.hw.tfrDone)
    && (chan.Fetching? || p.TurnOn? || p.StartChannel? ==>
          lli.valid && Intact(s.mem, published, lli.n) && lli.sar == published[lli.n].b)
    && (p.TurnOn? || p.StartChannel? ==> lli.n == Last(s))
    && (chan.Scanning? ==>
          Intact(s.mem, published, chan.n) && chan.sar == published[chan.n].b
          && chan.img == published[chan.n].img && !chan.torn)
  }

  // When the presenter knows that the channel has moved on.
  predicate Settled(s: State) {
    var p := s.srv.place;
    && (p.Await? && s.drv.notif ==> Current(s))
    && (p.Settle? ==> Current(s))
    && (Starting(p) || p.StartChannel? || p.Settle? || p.Drain? || p.Await? ==> s.drv.fb == s.srv.front)
    && (p == Return(OK) || (p.Idle? && s.srv.lastOk) ==> Current(s) && (s.drv.fbOn ==> s.drv.fb == s.srv.front))
  }

  predicate Whole(published: seq<Frame>, scan: Scan) {
    scan.n < |published| && scan.img == published[scan.n].img && !scan.torn
  }

  // Every frame the panel got, whole and in the order of publication.
  predicate Shown(s: State) {
    && (forall i :: 0 <= i < |s.log.shown| ==> Whole(s.log.published, s.log.shown[i]))
    && (forall i, j :: 0 <= i < j < |s.log.shown| ==> s.log.shown[i].n <= s.log.shown[j].n)
    && (forall i :: 0 <= i < |s.log.shown| && s.hw.chan.Fetching? ==> s.log.shown[i].n <= s.hw.lli.n)
    && (forall i :: 0 <= i < |s.log.shown| && s.hw.chan.Scanning? ==> s.log.shown[i].n <= s.hw.chan.n)
  }

  predicate Inv(s: State) {
    !s.board.glitches && Flags(s) && Streaming(s) && Settled(s) && Shown(s)
  }

  lemma InitialKeeps(s: State)
    requires Initial(s) && !s.board.glitches
    ensures Inv(s)
  {
  }

  lemma EnterKeeps(s: State, req: Request)
    requires Inv(s) && s.srv.place == Enter(req)
    ensures Inv(DoEnter(s, req))
  {
  }

  lemma CheckStartKeeps(s: State, b: Buffer, succeeds: bool)
    requires Inv(s) && s.srv.place == CheckStart(b)
    ensures Inv(DoCheckStart(s, b, succeeds))
  {
    var t := DoPublish(s, b, Attach(b));
    assert t.log.published[Last(t)] == Frame(b, At(s.mem, b));
  }

  lemma StartKeeps(s: State, b: Buffer, succeeds: bool)
    requires Inv(s)
    ensures s.srv.place == Attach(b) ==> Inv(DoAttach(s, b, succeeds))
    ensures s.srv.place == EnableLine(b) ==> Inv(DoEnableLine(s, b, succeeds))
    ensures s.srv.place == Abort(b) ==> Inv(DoAbort(s, b))
    ensures s.srv.place == Program(b) ==> Inv(DoProgram(s, b))
  {
  }

  lemma TurnOnKeeps(s: State, b: Buffer)
    requires Inv(s)
    ensures s.srv.place == TurnOn(b) ==> Inv(DoTurnOn(s, b))
    ensures s.srv.place == StartChannel(b) ==> Inv(DoStartChannel(s, b))
    ensures s.srv.place == Settle(b) ==> Inv(DoSettle(s))
  {
  }

  lemma PublishKeeps(s: State, b: Buffer)
    requires Inv(s) && s.srv.place == Publish(b)
    ensures Inv(DoPublish(s, b, Drain(b)))
  {
    var t := DoPublish(s, b, Drain(b));
    assert t.log.published[Last(t)] == Frame(b, At(s.mem, b));
  }

  lemma PresentKeeps(s: State, b: Buffer)
    requires Inv(s)
    ensures s.srv.place == CheckPresent(b) ==> Inv(DoCheckPresent(s, b))
    ensures s.srv.place == Drain(b) ==> Inv(DoDrain(s, Await(b)))
    ensures s.srv.place == Await(b) && s.drv.notif ==> Inv(DoDrain(s, Return(OK)))
  {
  }

  lemma ReturnKeeps(s: State, status: Status)
    requires Inv(s) && s.srv.place == Return(status)
    ensures Inv(DoReturn(s, status))
  {
  }

  lemma PresenterKeeps(s: State, succeeds: bool)
    requires Inv(s) && Enabled(s, Step(succeeds))
    ensures Inv(PresenterStep(s, succeeds))
  {
    hide Inv, DoEnter, DoCheckStart, DoAttach, DoEnableLine, DoAbort, DoProgram, DoTurnOn, DoStartChannel, DoSettle,
      DoCheckPresent, DoPublish, DoDrain, DoReturn;
    match s.srv.place
    case Enter(req) => EnterKeeps(s, req);
    case Return(status) => ReturnKeeps(s, status);
    case Idle => assert false;
    case CheckStart(b) => CheckStartKeeps(s, b, succeeds);
    case Publish(b) => PublishKeeps(s, b);
    case _ =>
      StartKeeps(s, s.srv.place.b, succeeds);
      TurnOnKeeps(s, s.srv.place.b);
      PresentKeeps(s, s.srv.place.b);
  }

  lemma HardwareKeeps(s: State)
    requires Inv(s)
    ensures s.drv.irqBound && s.hw.tfrDone ==> Inv(Rearm(s))
    ensures s.hw.chan.Fetching? ==> Inv(DoFetch(s))
    ensures s.hw.chan.Scanning? ==> Inv(DoFinish(s))
  {
  }

  lemma PaintKeeps(s: State, img: int)
    requires Inv(s) && MayPaint(s)
    ensures Inv(DoPaint(s, img))
  {
  }

  lemma ClientKeeps(s: State, req: Request)
    requires Inv(s)
    ensures s.srv.place.Idle? ==> Inv(s.(srv := s.srv.(place := Enter(req), req := req, was := s.srv.front)))
    ensures s.srv.place.Await? ==> Inv(Go(s, Return(EINVAL)))
  {
  }

  lemma StepKeeps(s: State, e: Event)
    requires Inv(s) && Enabled(s, e)
    ensures Inv(Apply(s, e))
  {
    assert !s.board.glitches;
    hide Inv, PresenterStep, Rearm, DoFetch, DoFinish, DoPaint, Go;
    match e
    case Call(req) => ClientKeeps(s, req);
    case Step(succeeds) => PresenterKeeps(s, succeeds);
    case Timeout => ClientKeeps(s, Flip);
    case Interrupt => HardwareKeeps(s);
    case Fetch => HardwareKeeps(s);
    case Finish => HardwareKeeps(s);
    case Paint(img) => PaintKeeps(s, img);
  }

  lemma {:induction false} RunKeeps(s: State, events: seq<Event>, t: State)
    requires Inv(s) && Run(s, events, t)
    ensures Inv(t)
    decreases |events|
  {
    hide Inv, Enabled, Apply;
    if events != [] {
      StepKeeps(s, events[0]);
      RunKeeps(Apply(s, events[0]), events[1..], t);
    }
  }

  // ------------------------------------------------------------- the promise

  // From a successful present until the next call, the panel reads the
  // presented buffer only: the back buffer is the client's to paint.
  lemma BackBufferIsFree(s: State, events: seq<Event>, t: State)
    requires Initial(s) && !s.board.glitches && Run(s, events, t)
    requires t.srv.place.Idle? && t.srv.lastOk
    ensures t.hw.chan.Scanning? ==> t.hw.chan.sar == t.srv.front != Other(t.srv.front)
    ensures t.hw.chan.Fetching? ==> t.hw.lli.sar == t.srv.front
    ensures t.drv.fbOn ==> t.drv.fb == t.srv.front
  {
    InitialKeeps(s);
    RunKeeps(s, events, t);
  }

  // -------------------------------------------------------- what is answered

  // Whether a request names buffer b when `was` is in front.
  predicate Asks(req: Request, was: Buffer, b: Buffer) {
    match req
    case Flip => b != was
    case Present(p) => p == Cached(b) || p == Uncached(b)
  }

  // From the moment the request has been looked at, the buffer in front is the
  // one it names, unless it is refused.
  predicate Answers(srv: Server) {
    && (srv.place.Enter? ==> srv.place.req == srv.req && srv.front == srv.was)
    && (!srv.place.Idle? && !srv.place.Enter? && srv.place != Return(EINVAL) ==> Asks(srv.req, srv.was, srv.front))
    && (srv.place.Idle? && srv.lastOk ==> Asks(srv.req, srv.was, srv.front))
  }

  lemma StepAnswers(s: State, e: Event)
    requires Answers(s.srv) && Enabled(s, e)
    ensures Answers(Apply(s, e).srv)
  {
    if e.Step? {
      PresenterAnswers(s, e.succeeds);
    }
    hide PresenterStep;
  }

  lemma PresenterAnswers(s: State, succeeds: bool)
    requires Answers(s.srv) && !s.srv.place.Idle?
    ensures Answers(PresenterStep(s, succeeds).srv)
  {
  }

  lemma {:induction false} RunAnswers(s: State, events: seq<Event>, t: State)
    requires Answers(s.srv) && Run(s, events, t)
    ensures Answers(t.srv)
    decreases |events|
  {
    hide Answers, Enabled, Apply;
    if events != [] {
      StepAnswers(s, events[0]);
      RunAnswers(Apply(s, events[0]), events[1..], t);
    }
  }

  // A present that is answered OK shows the buffer it was asked for, by either
  // of its addresses; a flip shows the other one; anything else is refused.
  lemma AskedBufferIsShown(s: State, events: seq<Event>, t: State)
    requires Initial(s) && !s.board.glitches && Run(s, events, t)
    requires t.srv.place.Idle? && t.srv.lastOk
    ensures Asks(t.srv.req, t.srv.was, t.srv.front)
    ensures t.hw.chan.Scanning? ==> Asks(t.srv.req, t.srv.was, t.hw.chan.sar)
  {
    RunAnswers(s, events, t);
    BackBufferIsFree(s, events, t);
  }

  // Whatever is presented, painted and lost in between, the panel receives
  // whole frames only, in the order in which they were presented.
  lemma PanelSeesWholeFrames(s: State, events: seq<Event>, t: State)
    requires Initial(s) && !s.board.glitches && Run(s, events, t)
    ensures forall i :: 0 <= i < |t.log.shown| ==> Whole(t.log.published, t.log.shown[i])
    ensures forall i, j :: 0 <= i < j < |t.log.shown| ==> t.log.shown[i].n <= t.log.shown[j].n
  {
    InitialKeeps(s);
    RunKeeps(s, events, t);
  }

  // The channel and everything it finished after the first k scans are at
  // frame n or later.
  predicate NotBefore(s: State, k: nat, n: nat) {
    && n <= Last(s) && k <= |s.log.shown|
    && (s.hw.chan.Fetching? ==> n <= s.hw.lli.n)
    && (s.hw.chan.Scanning? ==> n <= s.hw.chan.n)
    && forall i :: k <= i < |s.log.shown| ==> n <= s.log.shown[i].n
  }

  lemma PresenterMovesOn(s: State, succeeds: bool, k: nat, n: nat)
    requires Inv(s) && Enabled(s, Step(succeeds)) && NotBefore(s, k, n)
    ensures NotBefore(PresenterStep(s, succeeds), k, n)
  {
    var place, t := s.srv.place, PresenterStep(s, succeeds);
    assert t.log.shown == s.log.shown && Last(t) >= Last(s);
    assert place.StartChannel? ==> s.hw.lli.n == Last(s);
    if !place.StartChannel? {
      assert t.hw.chan.Stopped? || (t.hw == s.hw);
    }
  }

  lemma StepMovesOn(s: State, e: Event, k: nat, n: nat)
    requires Inv(s) && Enabled(s, e) && NotBefore(s, k, n)
    ensures NotBefore(Apply(s, e), k, n)
  {
    if e.Step? {
      PresenterMovesOn(s, e.succeeds, k, n);
    }
    hide Inv, PresenterStep;
  }

  lemma {:induction false} RunMovesOn(s: State, events: seq<Event>, t: State, k: nat, n: nat)
    requires Inv(s) && Run(s, events, t) && NotBefore(s, k, n)
    ensures NotBefore(t, k, n)
    decreases |events|
  {
    hide Inv, Enabled, Apply, NotBefore;
    if events != [] {
      StepKeeps(s, events[0]);
      StepMovesOn(s, events[0], k, n);
      RunMovesOn(Apply(s, events[0]), events[1..], t, k, n);
    }
  }

  // No present completes early: from the moment the server decides to answer
  // OK, every scan that ends shows the presented frame or a later one.
  lemma OldFramesAreGone(s: State, events: seq<Event>, t: State)
    requires Inv(s) && s.srv.place == Return(OK) && Run(s, events, t)
    ensures forall i :: |s.log.shown| <= i < |t.log.shown| ==> Last(s) <= t.log.shown[i].n
  {
    RunMovesOn(s, events, t, |s.log.shown|, Last(s));
  }

  // ---------------------------------------------------- what the line must do

  // A present is answered OK while an older frame is still being read.
  predicate Premature(s: State) {
    s.srv.place == Return(OK) && s.hw.chan.Scanning? && s.hw.chan.n != Last(s)
  }

  ghost predicate CanBePremature(s: State) {
    exists events, t :: Run(s, events, t) && Premature(t)
  }

  function Quiet(s: State): State { s.(board := s.board.(glitches := false)) }

  lemma Then(s: State, e: Event, events: seq<Event>, t: State)
    requires Enabled(s, e) && Run(Apply(s, e), events, t)
    ensures Run(s, [e] + events, t)
  {
    assert ([e] + events)[1..] == events;
  }

  // While an older frame is being read, the answer can come too early if and
  // only if something other than the end of a transfer can raise the line.
  lemma PrematureExactly(s: State)
    requires Inv(Quiet(s)) && s.srv.place.Await? && s.hw.chan.Scanning? && s.hw.chan.n != Last(s)
    ensures s.board.glitches <==> CanBePremature(s)
  {
    if s.board.glitches {
      var t := Rearm(s);
      var u := DoDrain(t, Return(OK));
      assert t.hw == s.hw && t.drv.notif && t.srv.place.Await? && Last(u) == Last(s);
      assert Run(u, [], u) && Premature(u);
      Then(t, Step(true), [], u);
      Then(s, Interrupt, [Step(true)] + [], u);
    } else {
      assert s == Quiet(s);
      forall events, t | Run(s, events, t) ensures !Premature(t) {
        RunKeeps(s, events, t);
      }
    }
  }

  // ------------------------------------------------------ what a timeout costs

  // The server is idle while its back buffer is being read: painting it tears.
  predicate Exposed(s: State) {
    s.srv.place.Idle? && s.hw.chan.Scanning? && s.hw.chan.sar == Other(s.srv.front)
  }

  // Outside a present call the channel is at the frame of the front buffer.
  predicate Steadfast(s: State) {
    var p := s.srv.place;
    && (p.Idle? || p.Enter? || p.Return? || p.CheckPresent? || p.Publish? ==> Current(s))
    && ((p.Idle? || p.Enter? || p.Return?) && s.drv.fbOn ==> s.drv.fb == s.srv.front)
  }

  lemma SteadfastKeeps(s: State, e: Event)
    requires Inv(s) && Steadfast(s) && Enabled(s, e) && !e.Timeout?
    ensures Steadfast(Apply(s, e))
  {
    if e.Step? {
      PresenterStaysSteadfast(s, e.succeeds);
    }
    hide PresenterStep;
  }

  lemma PresenterStaysSteadfast(s: State, succeeds: bool)
    requires Inv(s) && Steadfast(s) && Enabled(s, Step(succeeds))
    ensures Steadfast(PresenterStep(s, succeeds))
  {
  }

  lemma {:induction false} RunStaysSteadfast(s: State, events: seq<Event>, t: State)
    requires Inv(s) && Steadfast(s) && Run(s, events, t) && Timeout !in events
    ensures Inv(t) && Steadfast(t)
    decreases |events|
  {
    hide Inv, Enabled, Apply, Steadfast;
    if events != [] {
      StepKeeps(s, events[0]);
      SteadfastKeeps(s, events[0]);
      RunStaysSteadfast(Apply(s, events[0]), events[1..], t);
    }
  }

  // As long as no wait times out an idle server's back buffer is never read,
  // whatever calls fail.
  lemma OnlyTimeoutsExpose(s: State, events: seq<Event>, t: State)
    requires Initial(s) && !s.board.glitches && Run(s, events, t) && Timeout !in events
    ensures !Exposed(t)
  {
    InitialKeeps(s);
    RunStaysSteadfast(s, events, t);
  }

  // An idle server whose panel reads the front buffer.
  predicate Steady(s: State) {
    && s.srv.place.Idle? && s.srv.dpiOn && s.drv.fbOn && s.drv.notifValid && s.board.ready && s.board.psram
    && s.hw.chan.Scanning? && s.hw.chan.sar == s.srv.front
  }

  ghost predicate Leads(s: State, events: seq<Event>, goal: State -> bool) {
    exists t :: Run(s, events, t) && goal(t)
  }

  lemma Before(s: State, e: Event, t: State, events: seq<Event>, goal: State -> bool)
    requires Enabled(s, e) && Apply(s, e) == t && Leads(t, events, goal)
    ensures Leads(s, [e] + events, goal)
  {
    var u :| Run(t, events, u) && goal(u);
    Then(s, e, events, u);
  }

  // One timeout is enough: a flip that times out leaves the panel reading what
  // has become the back buffer.
  lemma OneTimeoutExposes(s: State) returns (events: seq<Event>)
    requires Steady(s)
    ensures multiset(events)[Timeout] == 1 && Leads(s, events, Exposed)
  {
    var b := Other(s.srv.front);
    var s1 := Apply(s, Call(Flip));
    var s2 := DoEnter(s1, Flip);
    var s3 := DoCheckPresent(s2, b);
    assert s2.srv.place == CheckPresent(b) && s3.srv.place == Publish(b);
    hide DoEnter, DoCheckPresent, Leads, Exposed;
    events := PublishedTooLate(s3, b);
    Before(s2, Step(true), s3, events, Exposed);
    Before(s1, Step(true), s2, [Step(true)] + events, Exposed);
    Before(s, Call(Flip), s1, [Step(true)] + ([Step(true)] + events), Exposed);
    events := [Call(Flip)] + ([Step(true)] + ([Step(true)] + events));
  }

  lemma PublishedTooLate(s: State, b: Buffer) returns (events: seq<Event>)
    requires s.srv.place == Publish(b) && s.srv.front == b
    requires s.hw.chan.Scanning? && s.hw.chan.sar == Other(b)
    ensures multiset(events)[Timeout] == 1 && Leads(s, events, Exposed)
  {
    var s1 := DoPublish(s, b, Drain(b));
    var s2 := DoDrain(s1, Await(b));
    var s3 := Go(s2, Return(EINVAL));
    var s4 := DoReturn(s3, EINVAL);
    assert Exposed(s4) && Run(s4, [], s4);
    assert Leads(s4, [], Exposed);
    hide DoPublish, DoDrain, DoReturn, Leads, Exposed;
    Before(s3, Step(true), s4, [], Exposed);
    Before(s2, Timeout, s3, [Step(true)] + [], Exposed);
    Before(s1, Step(true), s2, [Timeout] + ([Step(true)] + []), Exposed);
    events := [Step(true)] + ([Timeout] + ([Step(true)] + []));
    Before(s, Step(true), s1, events, Exposed);
    events := [Step(true)] + events;
  }

  // The first present of a working board brings the steady state about.
  lemma FirstPresentStreams(s: State) returns (events: seq<Event>)
    requires Initial(s) && s.board.ready && s.board.psram
    ensures Leads(s, events, Steady)
  {
    var b := Other(s.srv.front);
    var s1 := Apply(s, Call(Flip));
    var s2 := DoEnter(s1, Flip);
    var s3 := DoCheckStart(s2, b, true);
    assert s2.srv.place == CheckStart(b) && s3.srv.place == Attach(b);
    hide DoEnter, DoCheckStart, Leads, Steady;
    events := AttachedLine(s3, b);
    Before(s2, Step(true), s3, events, Steady);
    Before(s1, Step(true), s2, [Step(true)] + events, Steady);
    Before(s, Call(Flip), s1, [Step(true)] + ([Step(true)] + events), Steady);
    events := [Call(Flip)] + ([Step(true)] + ([Step(true)] + events));
  }

  lemma AttachedLine(s: State, b: Buffer) returns (events: seq<Event>)
    requires s.srv.place == Attach(b) && s.srv.front == b && !s.drv.irqBound
    requires s.board.ready && s.board.psram
    ensures Leads(s, events, Steady)
  {
    var s1 := DoAttach(s, b, true);
    var s2 := DoEnableLine(s1, b, true);
    var s3 := DoAbort(s2, b);
    assert s1.srv.place == EnableLine(b) && s2.srv.place == Abort(b);
    assert s3.srv.front == b && s3.drv.notifValid && s3.board == s.board;
    hide DoAttach, DoEnableLine, DoAbort, Leads, Steady;
    events := StartedStream(s3, b);
    Before(s2, Step(true), s3, events, Steady);
    Before(s1, Step(true), s2, [Step(true)] + events, Steady);
    Before(s, Step(true), s1, [Step(true)] + ([Step(true)] + events), Steady);
    events := [Step(true)] + ([Step(true)] + ([Step(true)] + events));
  }

  lemma StartedStream(s: State, b: Buffer) returns (events: seq<Event>)
    requires s.srv.place == Program(b) && s.srv.front == b
    requires s.drv.notifValid && s.board.ready && s.board.psram
    ensures Leads(s, events, Steady)
  {
    var s1 := DoProgram(s, b);
    var s2 := DoTurnOn(s1, b);
    assert s2.srv.place == StartChannel(b) && s1.srv.place == TurnOn(b);
    assert s2.hw.lli.valid && s2.hw.lli.sar == b && s2.drv.fbOn;
    hide DoProgram, DoTurnOn, Leads, Steady;
    events := StartedChannel(s2, b);
    Before(s1, Step(true), s2, events, Steady);
    Before(s, Step(true), s1, [Step(true)] + events, Steady);
    events := [Step(true)] + ([Step(true)] + events);
  }

  lemma StartedChannel(s: State, b: Buffer) returns (events: seq<Event>)
    requires s.srv.place == StartChannel(b) && s.srv.front == b && s.hw.lli.valid && s.hw.lli.sar == b
    requires s.drv.fbOn && s.drv.notifValid && s.board.ready && s.board.psram
    ensures Leads(s, events, Steady)
  {
    var s1 := DoStartChannel(s, b);
    var s2 := DoSettle(s1);
    var s3 := DoReturn(s2, OK);
    var s4 := DoFetch(s3);
    assert Steady(s4) && Run(s4, [], s4);
    assert Leads(s4, [], Steady);
    assert s1.srv.place == Settle(b) && s2.srv.place == Return(OK) && s3.hw.chan.Fetching? && s3.hw.lli.valid;
    hide DoStartChannel, DoSettle, DoReturn, DoFetch, Leads, Steady;
    Before(s3, Fetch, s4, [], Steady);
    Before(s2, Step(true), s3, [Fetch] + [], Steady);
    Before(s1, Step(true), s2, [Step(true)] + ([Fetch] + []), Steady);
    events := [Step(true)] + ([Step(true)] + ([Fetch] + []));
    Before(s, Step(true), s1, events, Steady);
    events := [Step(true)] + events;
  }
}
