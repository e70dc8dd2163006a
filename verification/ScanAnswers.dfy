// That presents are answered: by the end of the frame that is being read when
// they wait, and in every fair run unless their wait times out.
module ScanAnswers {
  import opened ScanOut
  import opened ScanSafety

  // A started channel is fetching, reading, or has its completion pending.
  predicate Alive(s: State) {
    s.drv.fbOn && !s.srv.place.StartChannel? ==> s.hw.tfrDone || !s.hw.chan.Stopped?
  }

  lemma AliveKeeps(s: State, e: Event)
    requires Inv(s) && Alive(s) && Enabled(s, e)
    ensures Alive(Apply(s, e))
  {
    if e.Step? {
      PresenterStaysAlive(s, e.succeeds);
    }
    hide PresenterStep;
  }

  lemma PresenterStaysAlive(s: State, succeeds: bool)
    requires Inv(s) && Alive(s) && Enabled(s, Step(succeeds))
    ensures Alive(PresenterStep(s, succeeds))
  {
  }

  // ------------------------------------------------------- what can be answered

  ghost predicate CanAnswer(s: State) {
    exists events, t :: Run(s, events, t) && Timeout !in events && t.srv.place == Return(OK)
  }

  // Neither a frame under way nor a completion nor a notification.
  predicate Stalled(s: State) { s.hw.chan.Stopped? && !s.hw.tfrDone && !s.drv.notif }

  lemma AnswerAfter(s: State, e: Event)
    requires Enabled(s, e) && e != Timeout && CanAnswer(Apply(s, e))
    ensures CanAnswer(s)
  {
    var events, t :| Run(Apply(s, e), events, t) && Timeout !in events && t.srv.place == Return(OK);
    Then(s, e, events, t);
    assert Timeout !in [e] + events;
  }

  lemma NotifiedIsAnswered(s: State)
    requires s.srv.place.Await? && s.drv.notif
    ensures CanAnswer(s)
  {
    var t := Apply(s, Step(true));
    assert Run(t, [], t);
    assert CanAnswer(t);
    AnswerAfter(s, Step(true));
  }

  lemma CompletedIsAnswered(s: State)
    requires Inv(s) && s.srv.place.Await? && s.hw.tfrDone
    ensures CanAnswer(s)
  {
    var t := Apply(s, Interrupt);
    assert t.srv.place.Await? && t.drv.notif;
    NotifiedIsAnswered(t);
    AnswerAfter(s, Interrupt);
  }

  lemma ScannedIsAnswered(s: State)
    requires Inv(s) && s.srv.place.Await? && s.hw.chan.Scanning?
    ensures CanAnswer(s)
  {
    var t := Apply(s, Finish);
    StepKeeps(s, Finish);
    CompletedIsAnswered(t);
    AnswerAfter(s, Finish);
  }

  lemma FetchedIsAnswered(s: State)
    requires Inv(s) && s.srv.place.Await? && s.hw.chan.Fetching?
    ensures CanAnswer(s)
  {
    var t := Apply(s, Fetch);
    StepKeeps(s, Fetch);
    ScannedIsAnswered(t);
    AnswerAfter(s, Fetch);
  }

  lemma OnlyTimeoutIsLeft(s: State, events: seq<Event>, t: State)
    requires Inv(s) && s.srv.place.Await? && Stalled(s) && Run(s, events, t)
    ensures events != [] ==> events[0] == Timeout
  {
  }

  // A waiting present can still be answered OK, without its wait timing out, if
  // and only if the channel has not stalled.
  lemma AnswerableExactly(s: State)
    requires Inv(s) && s.srv.place.Await?
    ensures CanAnswer(s) <==> !Stalled(s)
  {
    if s.drv.notif {
      NotifiedIsAnswered(s);
    } else if s.hw.tfrDone {
      CompletedIsAnswered(s);
    } else if s.hw.chan.Scanning? {
      ScannedIsAnswered(s);
    } else if s.hw.chan.Fetching? {
      FetchedIsAnswered(s);
    } else {
      forall events, t | Run(s, events, t) && Timeout !in events ensures t == s {
        OnlyTimeoutIsLeft(s, events, t);
      }
    }
  }

  lemma {:induction false} RunStaysAlive(s: State, events: seq<Event>, t: State)
    requires Inv(s) && Alive(s) && Run(s, events, t)
    ensures Inv(t) && Alive(t)
    decreases |events|
  {
    hide Inv, Enabled, Apply, Alive;
    if events != [] {
      StepKeeps(s, events[0]);
      AliveKeeps(s, events[0]);
      RunStaysAlive(Apply(s, events[0]), events[1..], t);
    }
  }

  // From power-up on no channel stalls: whatever has happened before, time-outs
  // included, a waiting present can still be answered OK.
  lemma WaitingCanBeAnswered(s: State, events: seq<Event>, t: State)
    requires Initial(s) && !s.board.glitches && Run(s, events, t) && t.srv.place.Await?
    ensures CanAnswer(t)
  {
    InitialKeeps(s);
    RunStaysAlive(s, events, t);
    AnswerableExactly(t);
  }

  // ------------------------------------------------------------------ all runs

  datatype Agent = Presenter | Line | Stream

  datatype Turn = Pause | Do(e: Event)

  predicate By(t: Turn, a: Agent) {
    t.Do? && match a
             case Presenter => t.e.Step?
             case Line => t.e.Interrupt?
             case Stream => t.e.Fetch? || t.e.Finish?
  }

  predicate CanMove(s: State, a: Agent) {
    match a
    case Presenter => Enabled(s, Step(true))
    case Line => Enabled(s, Interrupt)
    case Stream => Enabled(s, Fetch) || Enabled(s, Finish)
  }

  ghost predicate MovesAt(tr: nat -> State, turns: nat -> Turn, i: nat) {
    match turns(i)
    case Pause => tr(i + 1) == tr(i)
    case Do(e) => Enabled(tr(i), e) && tr(i + 1) == Apply(tr(i), e)
  }

  ghost predicate IsTrace(tr: nat -> State, turns: nat -> Turn) {
    Initial(tr(0)) && !tr(0).board.glitches && forall i: nat :: MovesAt(tr, turns, i)
  }

  ghost predicate MovesAfter(tr: nat -> State, turns: nat -> Turn, a: Agent, i: nat) {
    exists j: nat :: i <= j && MovesAt(tr, turns, j) && (By(turns(j), a) || !CanMove(tr(j), a))
  }

  // The presenter, the interrupt and the stream controller each move in the end
  // when they can.
  ghost predicate Fair(tr: nat -> State, turns: nat -> Turn) {
    forall a: Agent, i: nat :: MovesAfter(tr, turns, a, i)
  }

  ghost predicate NoTimeoutFrom(tr: nat -> State, turns: nat -> Turn, i: nat) {
    forall j: nat :: i <= j && MovesAt(tr, turns, j) ==> turns(j) != Do(Timeout)
  }

  // A request on its way to an answer: with buffer b in front when it names one
  // and the display is up, else to a refusal.
  predicate OnTheWay(s: State, c: Choice) {
    match c
    case None => ToRefusal(s)
    case Some(b) => ToSuccess(s, b)
  }

  predicate ToRefusal(s: State) {
    var srv := s.srv;
    srv.place == Return(EINVAL) ||
      (srv.place == Enter(srv.req) && (!s.board.ready || forall b :: !Asks(srv.req, srv.front, b)))
  }

  predicate ToSuccess(s: State, b: Buffer) {
    var srv, p := s.srv, s.srv.place;
    && s.board.ready && (s.board.psram ==> srv.dpiOn && s.drv.fbOn && s.drv.notifValid)
    && (if p.Enter? then p.req == srv.req && Asks(srv.req, srv.front, b) else srv.front == b)
    && (p.Enter? || p == Return(OK) || (s.board.psram && p in {CheckPresent(b), Publish(b), Drain(b), Await(b)}))
  }

  predicate AnsweredAs(s: State, c: Choice) {
    && s.srv.place.Idle? && (s.srv.lastOk <==> c.Some?)
    && (c.Some? ==> s.srv.front == c.b)
  }

  function ToCome(s: State): nat {
    match s.srv.place
    case Enter(_) => 9
    case CheckPresent(_) => 8
    case Publish(_) => 7
    case Drain(_) => 6
    case Await(_) =>
      if s.drv.notif then 2 else if s.hw.tfrDone then 3 else if s.hw.chan.Scanning? then 4 else 5
    case _ => 1
  }

  function Helpful(s: State): Agent {
    if s.srv.place.Await? && !s.drv.notif then (if s.hw.tfrDone then Line else Stream) else Presenter
  }

  lemma HelpfulCanMove(s: State, c: Choice)
    requires Inv(s) && Alive(s) && OnTheWay(s, c)
    ensures CanMove(s, Helpful(s))
  {
  }

  ghost predicate Nearer(s: State, t: State, c: Choice) {
    AnsweredAs(t, c) || (OnTheWay(t, c) && ToCome(t) < ToCome(s))
  }

  // The helpful agent's move brings the answer nearer; any other move but a
  // time-out does that, or leaves it to the same agent.
  lemma MoveHelps(s: State, c: Choice, e: Event)
    requires Inv(s) && Alive(s) && OnTheWay(s, c) && Enabled(s, e) && e != Timeout
    ensures Nearer(s, Apply(s, e), c) ||
      (OnTheWay(Apply(s, e), c) && ToCome(Apply(s, e)) == ToCome(s)
       && Helpful(Apply(s, e)) == Helpful(s) && !By(Do(e), Helpful(s)))
  {
    if e.Step? {
      PresenterHelps(s, c, e.succeeds);
    }
    hide PresenterStep;
  }

  lemma PresenterHelps(s: State, c: Choice, succeeds: bool)
    requires Inv(s) && OnTheWay(s, c) && Enabled(s, Step(succeeds))
    ensures Nearer(s, PresenterStep(s, succeeds), c)
  {
    if s.srv.place.Enter? {
      EnterHelps(s, c, s.srv.place.req);
    }
    hide DoEnter, Inv;
  }

  lemma EnterHelps(s: State, c: Choice, req: Request)
    requires OnTheWay(s, c) && s.srv.place == Enter(req)
    ensures Nearer(s, DoEnter(s, req), c)
  {
    var named := Named(s, req);
    assert named.Some? ==> Asks(req, s.srv.front, named.b);
    assert c.Some? ==> named == c;
  }

  lemma {:induction false} TraceKeeps(tr: nat -> State, turns: nat -> Turn, i: nat)
    requires IsTrace(tr, turns)
    ensures Inv(tr(i)) && Alive(tr(i))
  {
    hide Inv, Alive, Enabled, Apply;
    if i == 0 {
      InitialKeeps(tr(0));
      assert Alive(tr(0)) by { FreshIsAlive(tr(0)); }
    } else {
      TraceKeeps(tr, turns, i - 1);
      assert MovesAt(tr, turns, i - 1);
      if turns(i - 1).Do? {
        StepKeeps(tr(i - 1), turns(i - 1).e);
        AliveKeeps(tr(i - 1), turns(i - 1).e);
      }
    }
  }

  lemma FreshIsAlive(s: State)
    requires Initial(s)
    ensures Alive(s)
  {
  }

  ghost predicate BusyUntil(tr: nat -> State, i: nat, j: nat) {
    forall t: nat :: i <= t < j ==> !tr(t).srv.place.Idle?
  }

  // Before the helpful agent's turn at n the answer has come nearer.
  lemma {:induction false} ComesNearer(tr: nat -> State, turns: nat -> Turn, i: nat, n: nat, c: Choice) returns (j: nat)
    requires IsTrace(tr, turns) && NoTimeoutFrom(tr, turns, i) && OnTheWay(tr(i), c)
    requires i <= n && (By(turns(n), Helpful(tr(i))) || !CanMove(tr(n), Helpful(tr(i))))
    ensures i < j && Nearer(tr(i), tr(j), c) && BusyUntil(tr, i, j)
    decreases n - i
  {
    assert !tr(i).srv.place.Idle?;
    TraceKeeps(tr, turns, i);
    HelpfulCanMove(tr(i), c);
    assert MovesAt(tr, turns, i);
    hide IsTrace, Inv, Alive, Enabled, Apply, OnTheWay, AnsweredAs, ToCome, Helpful, CanMove;
    if turns(i).Do? {
      MoveHelps(tr(i), c, turns(i).e);
      if Nearer(tr(i), tr(i + 1), c) {
        return i + 1;
      }
    }
    assert n > i;
    j := ComesNearer(tr, turns, i + 1, n, c);
  }

  // In every fair run in which no wait times out from then on a request on its
  // way gets its answer.
  lemma {:induction false} AnswerComes(tr: nat -> State, turns: nat -> Turn, i: nat, c: Choice) returns (j: nat)
    requires IsTrace(tr, turns) && Fair(tr, turns) && NoTimeoutFrom(tr, turns, i) && OnTheWay(tr(i), c)
    ensures i < j && AnsweredAs(tr(j), c) && Inv(tr(j)) && BusyUntil(tr, i, j)
    decreases ToCome(tr(i))
  {
    assert MovesAfter(tr, turns, Helpful(tr(i)), i);
    var n: nat :| i <= n && MovesAt(tr, turns, n) && (By(turns(n), Helpful(tr(i))) || !CanMove(tr(n), Helpful(tr(i))));
    hide IsTrace, Fair, OnTheWay, AnsweredAs, ToCome, Helpful, CanMove, By, Inv;
    j := ComesNearer(tr, turns, i, n, c);
    if AnsweredAs(tr(j), c) {
      TraceKeeps(tr, turns, j);
    } else {
      j := AnswerComes(tr, turns, j, c);
    }
  }

  // What a request to an idle server is to be answered with.
  predicate Deserves(s: State, req: Request, c: Choice) {
    match c
    case None => !s.board.ready || forall b :: !Asks(req, s.srv.front, b)
    case Some(b) => s.board.ready && (s.board.psram ==> s.srv.dpiOn) && Asks(req, s.srv.front, b)
  }

  // In every such run a request to a display that is up is answered OK, with the
  // buffer it names in front and the channel at its frame, if it names one, and
  // is refused if it does not.
  lemma EveryPresentIsAnswered(tr: nat -> State, turns: nat -> Turn, i: nat, req: Request, c: Choice) returns (j: nat)
    requires IsTrace(tr, turns) && Fair(tr, turns) && NoTimeoutFrom(tr, turns, i)
    requires turns(i) == Do(Call(req)) && Deserves(tr(i), req, c)
    ensures i + 1 < j && BusyUntil(tr, i + 1, j) && tr(j).srv.place.Idle?
    ensures tr(j).srv.lastOk <==> c.Some?
    ensures c.Some? ==> tr(j).srv.front == c.b && Current(tr(j)) && (tr(j).drv.fbOn ==> tr(j).drv.fb == c.b)
  {
    TraceKeeps(tr, turns, i);
    assert MovesAt(tr, turns, i);
    assert OnTheWay(tr(i + 1), c);
    j := AnswerComes(tr, turns, i + 1, c);
  }

  // ------------------------------------------------------------ the first start

  predicate InStart(p: Place) {
    p.CheckStart? || p.Attach? || p.EnableLine? || p.Abort? || p.Program? || p.TurnOn? || p.StartChannel? || p.Settle?
  }

  // A call on the way fails: the link is not ready, or the interrupt, when it is
  // not attached yet, cannot be attached or enabled.
  predicate Fails(s: State, e: Event) {
    e == Step(false) && (s.srv.place.CheckStart? || (s.srv.place.Attach? && !s.drv.irqBound) || s.srv.place.EnableLine?)
  }

  ghost predicate SomeFails(s: State, events: seq<Event>)
    decreases |events|
  {
    events != [] && Enabled(s, events[0]) && (Fails(s, events[0]) || SomeFails(Apply(s, events[0]), events[1..]))
  }

  // The server is starting the display until the last of the events.
  ghost predicate Starts(s: State, events: seq<Event>)
    decreases |events|
  {
    events != [] ==> InStart(s.srv.place) && Enabled(s, events[0]) && Starts(Apply(s, events[0]), events[1..])
  }

  lemma StartGoesOn(s: State, e: Event)
    requires Inv(s) && InStart(s.srv.place) && Enabled(s, e)
    ensures if Fails(s, e) then Apply(s, e).srv.place == Return(EINVAL)
            else InStart(Apply(s, e).srv.place) || (Apply(s, e).srv.place == Return(OK) && Apply(s, e).srv.dpiOn)
  {
    if e.Step? {
      PresenterStarts(s, e.succeeds);
    }
    hide PresenterStep;
  }

  lemma PresenterStarts(s: State, succeeds: bool)
    requires Inv(s) && InStart(s.srv.place)
    ensures var t := PresenterStep(s, succeeds);
      if Fails(s, Step(succeeds)) then t.srv.place == Return(EINVAL)
      else InStart(t.srv.place) || (t.srv.place == Return(OK) && t.srv.dpiOn)
  {
  }

  // A present that finds the display off is answered OK, with the display on,
  // exactly if none of the calls it needs fails.
  lemma {:induction false} StartAnswersExactly(s: State, events: seq<Event>, t: State)
    requires Inv(s) && Run(s, events, t) && Starts(s, events) && t.srv.place.Return?
    requires InStart(s.srv.place)
    ensures t.srv.place == Return(OK) <==> !SomeFails(s, events)
    ensures t.srv.place == Return(OK) ==> t.srv.dpiOn
    decreases |events|
  {
    hide Inv, Enabled, Apply, Fails;
    if events != [] {
      var s' := Apply(s, events[0]);
      StepKeeps(s, events[0]);
      StartGoesOn(s, events[0]);
      if InStart(s'.srv.place) {
        StartAnswersExactly(s', events[1..], t);
      } else {
        assert events[1..] == [];
      }
    }
  }

  // -------------------------------------------------- what the panel is shown

  // Every scan that ends is on record, and nothing else.
  lemma {:induction false} EveryScanIsShown(s: State, events: seq<Event>, t: State)
    requires Run(s, events, t)
    ensures |t.log.shown| == |s.log.shown| + multiset(events)[Finish]
    decreases |events|
  {
    if events != [] {
      assert events == [events[0]] + events[1..];
      StepShows(s, events[0]);
      hide Enabled, Apply;
      EveryScanIsShown(Apply(s, events[0]), events[1..], t);
    }
  }

  lemma StepShows(s: State, e: Event)
    requires Enabled(s, e)
    ensures Apply(s, e).log.shown == s.log.shown + if e.Finish? then [Apply(s, e).log.shown[|s.log.shown|]] else []
  {
  }

  predicate PaintsNow(s: State, e: Event, b: Buffer) { e.Paint? && Other(s.srv.front) == b }

  // The client paints buffer b somewhere in the run.
  ghost predicate Paints(s: State, events: seq<Event>, b: Buffer)
    decreases |events|
  {
    events != [] && Enabled(s, events[0]) && (PaintsNow(s, events[0], b) || Paints(Apply(s, events[0]), events[1..], b))
  }

  // What buffer b holds after the run when it held `was` before.
  ghost function Content(s: State, events: seq<Event>, b: Buffer, was: int): int
    decreases |events|
  {
    if events == [] || !Enabled(s, events[0]) then was
    else Content(Apply(s, events[0]), events[1..], b, if PaintsNow(s, events[0], b) then events[0].img else was)
  }

  // Each buffer holds what was painted into it last.
  lemma {:induction false} BuffersHoldPaint(s: State, events: seq<Event>, t: State, b: Buffer)
    requires Run(s, events, t)
    ensures At(t.mem, b) == Content(s, events, b, At(s.mem, b))
    decreases |events|
  {
    if events != [] {
      StepPaints(s, events[0], b);
      hide Enabled, Apply;
      BuffersHoldPaint(Apply(s, events[0]), events[1..], t, b);
    }
  }

  lemma StepPaints(s: State, e: Event, b: Buffer)
    requires Enabled(s, e)
    ensures At(Apply(s, e).mem, b) == if PaintsNow(s, e, b) then e.img else At(s.mem, b)
  {
  }

  // One scan goes on until the last of the events.
  ghost predicate ScansOn(s: State, events: seq<Event>)
    decreases |events|
  {
    s.hw.chan.Scanning? && (events != [] && Enabled(s, events[0]) ==> ScansOn(Apply(s, events[0]), events[1..]))
  }

  lemma StepScansOn(s: State, e: Event)
    requires Enabled(s, e) && s.hw.chan.Scanning? && Apply(s, e).hw.chan.Scanning?
    ensures Apply(s, e).hw.chan == s.hw.chan.(torn := s.hw.chan.torn || PaintsNow(s, e, s.hw.chan.sar))
  {
  }

  lemma {:induction false} RunScansOn(s: State, events: seq<Event>, t: State)
    requires Run(s, events, t) && ScansOn(s, events)
    ensures s.hw.chan.Scanning? && t.hw.chan == s.hw.chan.(torn := s.hw.chan.torn || Paints(s, events, s.hw.chan.sar))
    decreases |events|
  {
    if events != [] {
      assert ScansOn(Apply(s, events[0]), events[1..]);
      StepScansOn(s, events[0]);
      hide Enabled, Apply;
      RunScansOn(Apply(s, events[0]), events[1..], t);
    }
  }

  // A fetch takes the image its buffer then holds, and the scan that ends is
  // shown as torn exactly if that buffer was painted meanwhile.
  lemma TornExactly(f: State, events: seq<Event>, t: State)
    requires Enabled(f, Fetch) && ScansOn(Apply(f, Fetch), events) && Run(Apply(f, Fetch), events, t)
    ensures t.hw.chan.Scanning?
    ensures var s := Apply(f, Fetch);
      Apply(t, Finish).log.shown ==
        t.log.shown + [Scan(f.hw.lli.n, At(f.mem, f.hw.lli.sar), Paints(s, events, f.hw.lli.sar))]
  {
    RunScansOn(Apply(f, Fetch), events, t);
    hide Run, ScansOn, Paints;
  }

  // ------------------------------------------------------------- steady flips

  // From one steady state to the next: a flip that shows the other buffer.
  ghost predicate Flipped(s: State, t: State) { Steady(t) && t.srv.lastOk && t.srv.front == Other(s.srv.front) }

  lemma {:induction false} RunOn(s: State, a: seq<Event>, t: State, b: seq<Event>, u: State)
    requires Run(s, a, t) && Run(t, b, u)
    ensures Run(s, a + b, u)
    decreases |a|
  {
    if a == [] {
      assert a + b == b;
    } else {
      RunOn(Apply(s, a[0]), a[1..], t, b, u);
      assert (a + b)[1..] == a[1..] + b;
    }
  }

  lemma FlipWaits(s: State) returns (t: State)
    requires Inv(s) && Steady(s)
    ensures Run(s, [Call(Flip), Step(true), Step(true), Step(true), Step(true)], t)
    ensures t.srv.place == Await(Other(s.srv.front)) && t.srv.front == Other(s.srv.front) && t.srv.dpiOn && t.drv.fbOn
    ensures t.drv.fb == t.srv.front && t.drv.notifValid && t.board == s.board && t.hw == s.hw
  {
    var b := Other(s.srv.front);
    var s1 := Apply(s, Call(Flip));
    var s2 := Apply(s1, Step(true));
    var s3 := Apply(s2, Step(true));
    var s4 := Apply(s3, Step(true));
    t := Apply(s4, Step(true));
    assert s2.srv.place == CheckPresent(b) && s3.srv.place == Publish(b) && s4.srv.place == Drain(b);
    hide Inv, Steady, PresenterStep;
    assert Run(t, [], t);
    Then(s4, Step(true), [], t);
    Then(s3, Step(true), [Step(true)], t);
    Then(s2, Step(true), [Step(true), Step(true)], t);
    Then(s1, Step(true), [Step(true), Step(true), Step(true)], t);
    Then(s, Call(Flip), [Step(true), Step(true), Step(true), Step(true)], t);
  }

  lemma FrameEnds(s: State) returns (t: State)
    requires Inv(s) && s.srv.place.Await? && s.hw.chan.Scanning? && s.drv.fbOn && s.drv.fb == s.srv.front
    ensures Run(s, [Finish, Interrupt, Step(true), Step(true), Fetch], t)
    ensures t.srv.place.Idle? && t.srv.lastOk && t.srv.front == s.srv.front && t.srv.dpiOn == s.srv.dpiOn
    ensures t.drv.fbOn && t.drv.notifValid == s.drv.notifValid && t.board == s.board
    ensures t.hw.chan.Scanning? && t.hw.chan.sar == s.srv.front
    ensures |t.log.shown| == |s.log.shown| + 1
  {
    var s1 := Apply(s, Finish);
    var s2 := Apply(s1, Interrupt);
    var s3 := Apply(s2, Step(true));
    var s4 := Apply(s3, Step(true));
    t := Apply(s4, Fetch);
    assert s2.drv.notif && s2.srv.place.Await? && s3.srv.place == Return(OK) && s4.srv.place.Idle?;
    assert s4.hw.chan.Fetching? && s4.hw.lli.valid;
    hide Inv, PresenterStep;
    assert Run(t, [], t);
    Then(s4, Fetch, [], t);
    Then(s3, Step(true), [Fetch], t);
    Then(s2, Step(true), [Step(true), Fetch], t);
    Then(s1, Interrupt, [Step(true), Step(true), Fetch], t);
    Then(s, Finish, [Interrupt, Step(true), Step(true), Fetch], t);
  }

  lemma FlipsOnAndOn(s: State) returns (events: seq<Event>, t: State)
    requires Inv(s) && Steady(s)
    ensures Run(s, events, t) && Timeout !in events && Flipped(s, t) && Inv(t)
  {
    var a := [Call(Flip), Step(true), Step(true), Step(true), Step(true)];
    var b := [Finish, Interrupt, Step(true), Step(true), Fetch];
    var m := FlipWaits(s);
    RunKeeps(s, a, m);
    assert m.hw.chan.Scanning? && m.board.ready && m.board.psram;
    t := FrameEnds(m);
    RunKeeps(m, b, t);
    events := a + b;
    hide Inv, Run;
    RunOn(s, a, m, b, t);
  }
}
