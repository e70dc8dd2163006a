// The two-core CAN demonstration: a transmitting thread, a receiving thread and
// the single-threaded CAN server, which may block inside RECV.
//
// In loop-back a requested frame reaches the receive object at any later time,
// or never.  The two counters wrap at 32 bits.
module CanHandOff {

  const WRAP: nat := 0x1_0000_0000

  function Next(n: nat): (r: nat)
    ensures r < WRAP
  {
    (n + 1) % WRAP
  }

  datatype Tx = Waiting | Sending | InSend | Posting | Resting

  datatype Rx = Watching | Receiving | InRecv | Counting | Publishing

  datatype Reply = Sent(ok: bool) | Received(ok: bool)

  datatype Server =
    | Idle
    | CheckRequest                   // SEND: is a frame still pending?
    | Load
    | Spin
    | LastLook
    | CheckNewData                   // RECV: has a frame arrived?
    | Blocked                        // in RECV, waiting for the interrupt
    | CheckAgain
    | ReadLow
    | ReadHigh(low: nat)
    | ClearNewData(low: nat, high: nat)
    | Answer(reply: Reply)

  // The transmit and receive message objects; a frame is known by its serial,
  // which counts from one.
  datatype Objects = Objects(txrq: bool, outgoing: nat, newdat: bool, low: nat, high: nat)

  // What a RECV returned: the frames its low and high words came from.
  datatype Taken = Taken(low: nat, high: nat)

  // The serials of the frames SEND reported as sent, what RECV returned, and
  // how many SENDs timed out.
  datatype Log = Log(sent: seq<nat>, got: seq<Taken>, timeouts: nat)

  datatype TxSide = TxSide(pc: Tx, serial: nat, posted: nat)

  datatype RxSide = RxSide(pc: Rx, awaited: nat, taken: nat)

  datatype State = State(tx: TxSide, rx: RxSide, srv: Server, hw: Objects, log: Log)

  datatype Event = TxStep | RxStep | Accept(send: bool) | Serve(giveUp: bool) | Deliver | Lose | Interrupt

  predicate Enabled(s: State, e: Event) {
    match e
    case TxStep => TxMayStep(s)
    case RxStep => RxMayStep(s)
    case Accept(send) => s.srv.Idle? && if send then s.tx.pc.Sending? else s.rx.pc.Receiving?
    case Serve(giveUp) =>
      && !s.srv.Idle? && !s.srv.Blocked?
      && (s.srv.Spin? && !giveUp ==> s.hw.newdat)
      && (s.srv.Answer? ==> if s.srv.reply.Sent? then s.tx.pc.InSend? else s.rx.pc.InRecv?)
    case Deliver => s.hw.txrq
    case Lose => s.hw.txrq
    case Interrupt => s.srv.Blocked?
  }

  predicate TxMayStep(s: State) {
    match s.tx.pc
    case Waiting => s.rx.taken == s.tx.posted
    case Posting => true
    case Resting => true
    case _ => false
  }

  predicate RxMayStep(s: State) {
    match s.rx.pc
    case Watching => s.tx.posted != s.rx.awaited
    case Counting => true
    case Publishing => true
    case _ => false
  }

  function Apply(s: State, e: Event): State
    requires Enabled(s, e)
  {
    match e
    case TxStep => s.(tx := TxMove(s.tx))
    case RxStep => s.(rx := RxMove(s.rx))
    case Accept(send) => DoAccept(s, send)
    case Serve(giveUp) => DoServe(s, giveUp)
    case Deliver => s.(hw := Objects(false, s.hw.outgoing, true, s.hw.outgoing, s.hw.outgoing))
    case Lose => s.(hw := s.hw.(txrq := false))
    case Interrupt => s.(srv := CheckAgain)
  }

  function TxMove(tx: TxSide): TxSide {
    match tx.pc
    case Waiting => tx.(pc := Sending)
    case Posting => tx.(pc := Resting, posted := Next(tx.posted))
    case _ => tx.(pc := Waiting, serial := tx.serial + 1)
  }

  function RxMove(rx: RxSide): RxSide {
    match rx.pc
    case Watching => rx.(pc := Receiving)
    case Counting => rx.(pc := Publishing, awaited := Next(rx.awaited))
    case _ => rx.(pc := Watching, taken := rx.awaited)
  }

  function DoAccept(s: State, send: bool): State {
    if send then s.(srv := CheckRequest, tx := s.tx.(pc := InSend))
    else s.(srv := CheckNewData, rx := s.rx.(pc := InRecv))
  }

  function DoServe(s: State, giveUp: bool): State
    requires !s.srv.Idle? && !s.srv.Blocked?
  {
    match s.srv
    case CheckRequest => if s.hw.txrq then Decide(s, Sent(false)) else Go(s, Load)
    case Load => Go(s.(hw := s.hw.(txrq := true, outgoing := s.tx.serial)), Spin)
    case Spin => if giveUp then Go(s, LastLook) else Decide(s, Sent(true))
    case LastLook => Decide(s, Sent(s.hw.newdat))
    case CheckNewData => Go(s, if s.hw.newdat then ReadLow else Blocked)
    case CheckAgain => if s.hw.newdat then Go(s, ReadLow) else Decide(s, Received(false))
    case ReadLow => Go(s, ReadHigh(s.hw.low))
    case ReadHigh(low) => Go(s, ClearNewData(low, s.hw.high))
    case ClearNewData(low, high) => DoClear(s, low, high)
    case Answer(reply) => DoAnswer(s, reply)
  }

  function Go(s: State, srv: Server): State { s.(srv := srv) }

  function Decide(s: State, reply: Reply): State {
    var log := match reply
      case Sent(true) => s.log.(sent := s.log.sent + [s.tx.serial])
      case Sent(false) => s.log.(timeouts := s.log.timeouts + 1)
      case Received(_) => s.log;
    s.(srv := Answer(reply), log := log)
  }

  function DoClear(s: State, low: nat, high: nat): State {
    s.(srv := Answer(Received(true)), hw := s.hw.(newdat := false),
       log := s.log.(got := s.log.got + [Taken(low, high)]))
  }

  function DoAnswer(s: State, reply: Reply): State {
    match reply
    case Sent(ok) => s.(srv := Idle, tx := s.tx.(pc := if ok then Posting else Resting))
    case Received(ok) => s.(srv := Idle, rx := s.rx.(pc := if ok then Counting else Watching))
  }

  function Init(): State {
    State(TxSide(Waiting, 1, 0), RxSide(Watching, 0, 0), Idle, Objects(false, 0, false, 0, 0), Log([], [], 0))
  }

  ghost predicate Run(s: State, events: seq<Event>, t: State)
    decreases |events|
  {
    if events == [] then s == t
    else Enabled(s, events[0]) && Run(Apply(s, events[0]), events[1..], t)
  }

  // -------------------------------------------------------------- the hand-off

  // A frame has been posted and its taking not yet been published.
  predicate Owed(s: State) { s.tx.posted == Next(s.rx.taken) }

  predicate ServesTx(srv: Server) {
    srv.CheckRequest? || srv.Load? || srv.Spin? || srv.LastLook? || (srv.Answer? && srv.reply.Sent?)
  }

  // The posted frame has left the receive object.
  predicate Fetched(s: State) {
    s.srv == Answer(Received(true)) || s.rx.pc.Counting? || s.rx.pc.Publishing?
  }

  // The posted frame, or one that took its place, is in the receive object.
  predicate Standing(s: State) {
    (Owed(s) && !Fetched(s)) || s.tx.pc.Posting? || s.srv == Answer(Sent(true))
  }

  predicate HandOff(s: State) {
    && s.tx.posted < WRAP && s.rx.taken < WRAP
    && (s.tx.posted == s.rx.taken || Owed(s))
    && s.rx.awaited == (if s.rx.pc.Publishing? then Next(s.rx.taken) else s.rx.taken)
    && (!s.rx.pc.Watching? ==> Owed(s))
    && (s.tx.pc.Sending? || s.tx.pc.InSend? || s.tx.pc.Posting? ==> !Owed(s))
    && (s.tx.pc.InSend? <==> ServesTx(s.srv))
    && (s.rx.pc.InRecv? <==> !s.srv.Idle? && !ServesTx(s.srv))
    && (Standing(s) ==> s.hw.newdat)
    && !s.srv.Blocked? && !s.srv.CheckAgain? && s.srv != Answer(Received(false))
  }

  lemma NextIsOther(n: nat)
    requires n < WRAP
    ensures Next(n) != n
  {
  }

  lemma TxKeeps(s: State)
    requires HandOff(s) && TxMayStep(s)
    ensures HandOff(s.(tx := TxMove(s.tx)))
  {
    NextIsOther(s.rx.taken);
  }

  lemma RxKeeps(s: State)
    requires HandOff(s) && RxMayStep(s)
    ensures HandOff(s.(rx := RxMove(s.rx)))
  {
    NextIsOther(s.rx.taken);
  }

  lemma ServeKeeps(s: State, giveUp: bool)
    requires HandOff(s) && Enabled(s, Serve(giveUp))
    ensures HandOff(DoServe(s, giveUp))
  {
    NextIsOther(s.rx.taken);
  }

  lemma StepKeeps(s: State, e: Event)
    requires HandOff(s) && Enabled(s, e)
    ensures HandOff(Apply(s, e))
  {
    NextIsOther(s.rx.taken);
    hide DoServe, TxMove, RxMove, TxMayStep, RxMayStep;
    match e
    case TxStep => TxKeeps(s);
    case RxStep => RxKeeps(s);
    case Serve(giveUp) => ServeKeeps(s, giveUp);
    case _ =>
  }

  lemma {:induction false} RunKeeps(s: State, events: seq<Event>, t: State)
    requires HandOff(s) && Run(s, events, t)
    ensures HandOff(t)
    decreases |events|
  {
    hide HandOff, Enabled, Apply;
    if events != [] {
      StepKeeps(s, events[0]);
      RunKeeps(Apply(s, events[0]), events[1..], t);
    }
  }

  // In every run, timeouts or not: at most one frame is posted and not taken,
  // every RECV finds one, and the server never blocks in RECV.
  lemma ServerNeverBlocks(events: seq<Event>, t: State)
    requires Run(Init(), events, t)
    ensures (t.tx.posted + WRAP - t.rx.taken) % WRAP <= 1
    ensures t.srv.CheckNewData? || t.rx.pc.Receiving? ==> t.hw.newdat
    ensures !t.srv.Blocked?
  {
    assert HandOff(Init());
    RunKeeps(Init(), events, t);
    hide HandOff;
    OneApart(t.tx.posted, t.rx.taken);
  }

  lemma OneApart(posted: nat, taken: nat)
    requires posted < WRAP && taken < WRAP && (posted == taken || posted == Next(taken))
    ensures (posted + WRAP - taken) % WRAP <= 1
  {
  }

  // ---------------------------------------------------------------- the frames

  // The frame of this round has not been requested yet.
  predicate BeforeRequest(s: State) {
    s.tx.pc.Waiting? || s.tx.pc.Sending? || s.srv.CheckRequest? || s.srv.Load?
  }

  function LastGot(got: seq<Taken>): nat { if got == [] then 0 else got[|got| - 1].high }

  // Frames arrive in the order of their requests, and none twice.
  predicate InOrder(s: State) {
    var hw, last := s.hw, LastGot(s.log.got);
    && hw.low == hw.high && last <= hw.low <= s.tx.serial && (hw.newdat ==> last < hw.low)
    && (hw.txrq ==> hw.low < hw.outgoing <= s.tx.serial)
    && (BeforeRequest(s) ==> hw.low < s.tx.serial && (hw.txrq ==> hw.outgoing < s.tx.serial))
    && (s.srv.ReadHigh? ==> last < s.srv.low <= hw.low)
    && (s.srv.ClearNewData? ==> last < s.srv.low <= s.srv.high <= hw.low)
    && (s.srv.ReadLow? ==> hw.newdat)
    && (s.srv.Load? ==> !hw.txrq)
    && Ascending(s.log.got)
  }

  predicate Ascending(got: seq<Taken>) {
    && (forall i :: 0 <= i < |got| ==> 0 < got[i].low <= got[i].high)
    && (forall i, j :: 0 <= i < j < |got| ==> got[i].high < got[j].low)
  }

  lemma AscendingGrows(got: seq<Taken>, t: Taken)
    requires Ascending(got) && LastGot(got) < t.low <= t.high
    ensures Ascending(got + [t])
  {
  }

  lemma ServeKeepsOrder(s: State, giveUp: bool)
    requires HandOff(s) && InOrder(s) && Enabled(s, Serve(giveUp))
    ensures InOrder(DoServe(s, giveUp))
  {
    if s.srv.ClearNewData? {
      AscendingGrows(s.log.got, Taken(s.srv.low, s.srv.high));
    }
    hide Ascending;
  }

  lemma StepKeepsOrder(s: State, e: Event)
    requires HandOff(s) && InOrder(s) && Enabled(s, e)
    ensures InOrder(Apply(s, e))
  {
    if e.Serve? {
      ServeKeepsOrder(s, e.giveUp);
    }
    hide DoServe, Ascending;
  }

  // With no send timed out so far: what was sent and what was received.
  predicate Lossless(s: State) {
    var hw, log := s.hw, s.log;
    && |log.sent| == |log.got| + (if Standing(s) then 1 else 0)
    && |log.sent| + 1 == s.tx.serial +
         (if s.tx.pc.Posting? || s.tx.pc.Resting? || s.srv == Answer(Sent(true)) then 1 else 0)
    && (forall i :: 0 <= i < |log.sent| ==> log.sent[i] == i + 1)
    && (forall i :: 0 <= i < |log.got| ==> log.got[i] == Taken(i + 1, i + 1))
    && (Standing(s) ==> hw.low == hw.high == |log.got| + 1 && !hw.txrq)
    && (!Standing(s) && !s.srv.Spin? && !s.srv.LastLook? ==> !hw.txrq && !hw.newdat)
    && (s.srv.Spin? || s.srv.LastLook? ==>
          if hw.txrq then !hw.newdat && hw.outgoing == s.tx.serial
          else hw.newdat ==> hw.low == hw.high == s.tx.serial)
    && (s.srv.ReadHigh? ==> s.srv.low == |log.got| + 1)
    && (s.srv.ClearNewData? ==> s.srv.low == s.srv.high == |log.got| + 1)
    && s.srv != Answer(Sent(false))
  }

  lemma ServeKeepsLossless(s: State, giveUp: bool)
    requires HandOff(s) && Lossless(s) && Enabled(s, Serve(giveUp))
    ensures DoServe(s, giveUp).log.timeouts == s.log.timeouts ==> Lossless(DoServe(s, giveUp))
  {
    NextIsOther(s.rx.taken);
  }

  lemma StepKeepsLossless(s: State, e: Event)
    requires HandOff(s) && Lossless(s) && Enabled(s, e)
    ensures Apply(s, e).log.timeouts == s.log.timeouts ==> Lossless(Apply(s, e))
    ensures Apply(s, e).log.timeouts >= s.log.timeouts
  {
    NextIsOther(s.rx.taken);
    if e.Serve? {
      ServeKeepsLossless(s, e.giveUp);
    }
  }

  // Every reported send is answered by one receive.
  predicate Paired(s: State) {
    |s.log.sent| == |s.log.got| + (if Standing(s) then 1 else 0)
  }

  lemma StepKeepsPaired(s: State, e: Event)
    requires HandOff(s) && Paired(s) && Enabled(s, e)
    ensures Paired(Apply(s, e))
  {
    NextIsOther(s.rx.taken);
  }

  predicate Inv(s: State) {
    HandOff(s) && InOrder(s) && Paired(s) && (s.log.timeouts == 0 ==> Lossless(s))
  }

  lemma {:induction false} RunKeepsAll(s: State, events: seq<Event>, t: State)
    requires Inv(s) && Run(s, events, t)
    ensures Inv(t)
    decreases |events|
  {
    hide HandOff, InOrder, Paired, Lossless, Enabled, Apply;
    if events != [] {
      StepKeeps(s, events[0]);
      StepKeepsOrder(s, events[0]);
      StepKeepsPaired(s, events[0]);
      if s.log.timeouts == 0 {
        StepKeepsLossless(s, events[0]);
      } else {
        TimeoutsStay(s, events[0]);
      }
      RunKeepsAll(Apply(s, events[0]), events[1..], t);
    }
  }

  lemma TimeoutsStay(s: State, e: Event)
    requires Enabled(s, e)
    ensures Apply(s, e).log.timeouts >= s.log.timeouts
  {
  }

  lemma InitKeepsAll()
    ensures Inv(Init())
  {
  }

  // As long as no send has timed out nothing is lost, doubled, torn or late: the
  // k-th receive returns the k-th frame sent.
  lemma NothingIsLost(events: seq<Event>, t: State, k: nat)
    requires Run(Init(), events, t) && t.log.timeouts == 0 && k < |t.log.got|
    ensures k < |t.log.sent| && t.log.got[k] == Taken(t.log.sent[k], t.log.sent[k])
  {
    InitKeepsAll();
    RunKeepsAll(Init(), events, t);
  }

  // Timeouts or not, no frame is received twice or out of order; a torn frame
  // is made of two successive arrivals.
  lemma FramesAscend(events: seq<Event>, t: State)
    requires Run(Init(), events, t)
    ensures Ascending(t.log.got) && |t.log.got| <= |t.log.sent| <= |t.log.got| + 1
    ensures forall k :: 0 <= k < |t.log.got| ==> t.log.got[k].high <= t.tx.serial
  {
    InitKeepsAll();
    RunKeepsAll(Init(), events, t);
    UpToLast(t.log.got);
  }

  lemma UpToLast(got: seq<Taken>)
    requires Ascending(got)
    ensures forall k :: 0 <= k < |got| ==> got[k].high <= LastGot(got)
  {
  }

  // ------------------------------------------------------------ stale frames

  // The k-th reported send was of frame n, and the receive that answers it
  // returned something else.
  predicate Stale(s: State, k: nat, n: nat) {
    k < |s.log.got| && k < |s.log.sent| && s.log.sent[k] == n && s.log.got[k] != Taken(n, n)
  }

  // Frame n was requested with an empty receive object.
  predicate Course(s: State, k: nat, n: nat) {
    var hw := s.hw;
    if |s.log.sent| < k then false
    else if |s.log.sent| == k then
      s.tx.serial > n
      || (s.tx.serial == n && (s.tx.pc.Resting? || s.srv == Answer(Sent(false))))
      || (s.tx.serial == n && s.srv.Load? && !hw.newdat && !hw.txrq)
      || (s.tx.serial == n && (s.srv.Spin? || s.srv.LastLook?)
          && if hw.txrq then !hw.newdat && hw.outgoing == n else hw.newdat ==> hw.low == hw.high == n)
    else if s.log.sent[k] != n then true
    else if |s.log.got| > k then s.log.got[k] == Taken(n, n)
    else
      && |s.log.sent| == k + 1 && s.tx.serial >= n
      && !hw.txrq && hw.low == hw.high == n
      && (s.srv.ReadHigh? ==> s.srv.low == n)
      && (s.srv.ClearNewData? ==> s.srv.low == s.srv.high == n)
  }

  lemma StepKeepsCourse(s: State, e: Event, k: nat, n: nat)
    requires HandOff(s) && Paired(s) && Enabled(s, e) && Course(s, k, n)
    ensures Course(Apply(s, e), k, n)
  {
    NextIsOther(s.rx.taken);
    if e.Serve? {
      ServeKeepsCourse(s, e.giveUp, k, n);
    }
    hide DoServe;
  }

  lemma ServeKeepsCourse(s: State, giveUp: bool, k: nat, n: nat)
    requires HandOff(s) && Paired(s) && Enabled(s, Serve(giveUp)) && Course(s, k, n)
    ensures Course(DoServe(s, giveUp), k, n)
  {
    NextIsOther(s.rx.taken);
  }

  lemma {:induction false} RunKeepsCourse(s: State, events: seq<Event>, t: State, k: nat, n: nat)
    requires Inv(s) && Run(s, events, t) && Course(s, k, n)
    ensures Course(t, k, n)
    decreases |events|
  {
    hide HandOff, InOrder, Paired, Lossless, Enabled, Apply, Course;
    if events != [] {
      var s' := Apply(s, events[0]);
      assert Run(s, [events[0]], s') by {
        assert [events[0]][1..] == [];
      }
      RunKeepsAll(s, [events[0]], s');
      StepKeepsCourse(s, events[0], k, n);
      RunKeepsCourse(s', events[1..], t, k, n);
    }
  }

  ghost predicate CanGoStale(s: State, k: nat, n: nat) {
    exists events, t :: Run(s, events, t) && Stale(t, k, n)
  }

  lemma Then(s: State, e: Event, t: State, k: nat, n: nat)
    requires Enabled(s, e) && Apply(s, e) == t && CanGoStale(t, k, n)
    ensures CanGoStale(s, k, n)
  {
    var events, u :| Run(t, events, u) && Stale(u, k, n);
    assert ([e] + events)[1..] == events;
    assert Run(s, [e] + events, u);
  }

  lemma ReceivesOld(s: State, k: nat, n: nat)
    requires s.srv.Idle? && s.rx.pc.Watching? && s.tx.posted != s.rx.awaited && s.hw.newdat && s.hw.low < n
    requires |s.log.got| == k < |s.log.sent| && s.log.sent[k] == n
    ensures CanGoStale(s, k, n)
  {
    var s1 := s.(rx := RxMove(s.rx));
    var s2 := DoAccept(s1, false);
    var s3 := Go(s2, ReadLow);
    var s4 := Go(s3, ReadHigh(s.hw.low));
    var s5 := Go(s4, ClearNewData(s.hw.low, s.hw.high));
    var s6 := DoClear(s5, s.hw.low, s.hw.high);
    assert Run(s6, [], s6) && Stale(s6, k, n);
    hide CanGoStale, Stale, DoClear, DoAccept;
    Then(s5, Serve(false), s6, k, n);
    Then(s4, Serve(false), s5, k, n);
    Then(s3, Serve(false), s4, k, n);
    assert s2.srv.CheckNewData? && s2.hw.newdat by {
      assert s2 == s1.(srv := CheckNewData, rx := s1.rx.(pc := InRecv));
    }
    Then(s2, Serve(false), s3, k, n);
    Then(s1, Accept(false), s2, k, n);
    Then(s, RxStep, s1, k, n);
  }

  lemma SendsIntoFull(s: State)
    requires Inv(s) && s.srv.Load? && s.hw.newdat
    ensures CanGoStale(s, |s.log.sent|, s.tx.serial)
  {
    var k, n := |s.log.sent|, s.tx.serial;
    var s1 := Go(s.(hw := s.hw.(txrq := true, outgoing := n)), Spin);
    var s2 := Decide(s1, Sent(true));
    var s3 := DoAnswer(s2, Sent(true));
    var s4 := s3.(tx := TxMove(s3.tx));
    NextIsOther(s.rx.taken);
    assert s4.log.sent == s.log.sent + [n] && s4.log.got == s.log.got && !s4.srv.Answer?;
    assert s3.tx.pc.Posting? && s2.tx.pc.InSend?;
    hide CanGoStale, HandOff, InOrder, Paired, Lossless;
    assert s.rx.pc.Watching? && s.rx.awaited == s.rx.taken == s.tx.posted && s.hw.low < n && |s.log.got| == k by {
      AtLoad(s);
    }
    ReceivesOld(s4, k, n);
    Then(s3, TxStep, s4, k, n);
    Then(s2, Serve(false), s3, k, n);
    Then(s1, Serve(false), s2, k, n);
    Then(s, Serve(false), s1, k, n);
  }

  lemma AtLoad(s: State)
    requires Inv(s) && s.srv.Load?
    ensures s.rx.pc.Watching? && s.rx.awaited == s.rx.taken == s.tx.posted && !s.hw.txrq
    ensures s.hw.low < s.tx.serial && |s.log.got| == |s.log.sent|
    ensures s.tx.posted < WRAP
  {
    NextIsOther(s.rx.taken);
  }

  // A send can be reported as done with the frame of an earlier one, if and
  // only if the receive object is still full when the frame is loaded.
  lemma StaleExactly(s: State)
    requires Inv(s) && s.srv.Load?
    ensures s.hw.newdat <==> CanGoStale(s, |s.log.sent|, s.tx.serial)
  {
    var k, n := |s.log.sent|, s.tx.serial;
    AtLoad(s);
    if s.hw.newdat {
      SendsIntoFull(s);
    } else {
      assert Course(s, k, n);
      forall events, t | Run(s, events, t) ensures !Stale(t, k, n) {
        RunKeepsCourse(s, events, t, k, n);
        hide Inv;
      }
    }
  }

  // The second send, about to load its frame into message objects that the
  // first frame reached after its own send had timed out.
  function SecondLoad(): State {
    State(TxSide(InSend, 2, 0), RxSide(Watching, 0, 0), Load, Objects(false, 1, true, 1, 1), Log([], [], 1))
  }

  // A run from the start in which that send is reported as done, and the
  // receive that answers it returns the first frame.
  lemma StaleHappens()
    ensures exists events, t :: Run(Init(), events, t) && Stale(t, 0, 2)
  {
    var s := SecondLoad();
    assert Inv(s);
    SendsIntoFull(s);
    hide CanGoStale, HandOff, InOrder, Paired, Lossless;
    var c := s.(srv := CheckRequest);
    Then(c, Serve(false), s, 0, 2);
    var b := c.(srv := Idle, tx := TxSide(Sending, 2, 0));
    Then(b, Accept(true), c, 0, 2);
    var a := b.(tx := TxSide(Waiting, 2, 0));
    Then(a, TxStep, b, 0, 2);
    var r := a.(tx := TxSide(Resting, 1, 0));
    Then(r, TxStep, a, 0, 2);
    FirstTimesOut(r);
    StaleUnfolds(Init());
  }

  lemma StaleUnfolds(s: State)
    requires CanGoStale(s, 0, 2)
    ensures exists events, t :: Run(s, events, t) && Stale(t, 0, 2)
  {
  }

  // The first send times out, and its frame arrives afterwards.
  lemma FirstTimesOut(r: State)
    requires r == State(TxSide(Resting, 1, 0), RxSide(Watching, 0, 0), Idle, Objects(false, 1, true, 1, 1),
                        Log([], [], 1))
    requires CanGoStale(r, 0, 2)
    ensures CanGoStale(Init(), 0, 2)
  {
    hide CanGoStale;
    var q := r.(hw := Objects(true, 1, false, 0, 0));
    Then(q, Deliver, r, 0, 2);
    var p := q.(srv := Answer(Sent(false)), tx := TxSide(InSend, 1, 0));
    Then(p, Serve(false), q, 0, 2);
    var o := p.(srv := LastLook, log := Log([], [], 0));
    Then(o, Serve(false), p, 0, 2);
    var n := o.(srv := Spin);
    Then(n, Serve(true), o, 0, 2);
    var m := n.(srv := Load, hw := Objects(false, 0, false, 0, 0));
    Then(m, Serve(false), n, 0, 2);
    var l := m.(srv := CheckRequest);
    Then(l, Serve(false), m, 0, 2);
    var k := l.(srv := Idle, tx := TxSide(Sending, 1, 0));
    Then(k, Accept(true), l, 0, 2);
    Then(Init(), TxStep, k, 0, 2);
  }
}
