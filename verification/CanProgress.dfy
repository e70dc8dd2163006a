// What the CAN server answers, and that the demonstration goes on: over all runs
// of the hand-off.
module CanProgress {
  import opened CanHandOff

  // ----------------------------------------------------------- what is answered

  // A RECV that has gone on to read has a full receive object.
  predicate Reading(s: State) { s.srv.ReadLow? || s.srv.ReadHigh? || s.srv.ClearNewData? ==> s.hw.newdat }

  lemma GotGrows(s: State, e: Event)
    requires Enabled(s, e)
    ensures |Apply(s, e).log.got| >= |s.log.got|
  {
  }

  lemma StepFills(s: State, e: Event)
    requires Enabled(s, e) && Reading(s) && |Apply(s, e).log.got| == |s.log.got|
    ensures Reading(Apply(s, e)) && (Apply(s, e).hw.newdat <==> s.hw.newdat || e.Deliver?)
  {
  }

  lemma {:induction false} RunGrows(s: State, events: seq<Event>, t: State)
    requires Run(s, events, t)
    ensures |t.log.got| >= |s.log.got|
    decreases |events|
  {
    hide Enabled, Apply;
    if events != [] {
      GotGrows(s, events[0]);
      RunGrows(Apply(s, events[0]), events[1..], t);
    }
  }

  // Until a frame is taken the receive object is full if it was or one arrived.
  lemma {:induction false} RunFills(s: State, events: seq<Event>, t: State)
    requires Run(s, events, t) && Reading(s) && |t.log.got| == |s.log.got|
    ensures Reading(t) && (t.hw.newdat <==> s.hw.newdat || Deliver in events)
    decreases |events|
  {
    hide Enabled, Apply, Reading;
    if events != [] {
      GotGrows(s, events[0]);
      RunGrows(Apply(s, events[0]), events[1..], t);
      StepFills(s, events[0]);
      RunFills(Apply(s, events[0]), events[1..], t);
    }
  }

  // A SEND that has loaded its frame is reported as sent, and its frame recorded,
  // exactly if the receive object was full then or a frame has arrived before the
  // decision, be it at the last look; else it counts as timed out.
  lemma SendIsToldExactly(s: State, events: seq<Event>, t: State, giveUp: bool, u: State, ok: bool)
    requires s.srv.Load? && Run(s, events, t) && |t.log.got| == |s.log.got|
    requires (t.srv.Spin? || t.srv.LastLook?) && Enabled(t, Serve(giveUp)) && u == Apply(t, Serve(giveUp))
    requires u.srv == Answer(Sent(ok))
    ensures ok <==> s.hw.newdat || Deliver in events
    ensures u.log.sent == t.log.sent + if ok then [t.tx.serial] else []
    ensures u.log.timeouts == t.log.timeouts + if ok then 0 else 1
  {
    RunFills(s, events, t);
  }

  // A RECV is answered with a frame exactly if there was one when it came or one
  // has arrived since.
  lemma RecvIsToldExactly(s: State, events: seq<Event>, t: State, giveUp: bool, u: State, ok: bool)
    requires s.srv.CheckNewData? && Run(s, events, t) && |t.log.got| == |s.log.got|
    requires (t.srv.CheckAgain? || t.srv.ClearNewData?) && Enabled(t, Serve(giveUp)) && u == Apply(t, Serve(giveUp))
    requires u.srv == Answer(Received(ok))
    ensures ok <==> s.hw.newdat || Deliver in events
    ensures |u.log.got| == |t.log.got| + if ok then 1 else 0
    ensures ok ==> !u.hw.newdat
  {
    RunFills(s, events, t);
  }

  // A RECV that blocks ends after the interrupt, with a frame if there is one.
  lemma BlockedRecvEnds(s: State) returns (events: seq<Event>, t: State)
    requires s.srv.Blocked?
    ensures Run(s, events, t) && t.srv == Answer(Received(s.hw.newdat))
  {
    var s1 := Apply(s, Interrupt);
    var s2 := Apply(s1, Serve(false));
    if s.hw.newdat {
      var s3 := Apply(s2, Serve(false));
      var s4 := Apply(s3, Serve(false));
      t := Apply(s4, Serve(false));
      events := [Interrupt, Serve(false), Serve(false), Serve(false), Serve(false)];
      assert Run(t, events[5..], t) && Run(s4, events[4..], t) && Run(s3, events[3..], t) && Run(s2, events[2..], t);
    } else {
      t := s2;
      events := [Interrupt, Serve(false)];
      assert Run(s2, events[2..], t);
    }
    assert Run(s1, events[1..], t);
  }

  // ------------------------------------------------------------------ progress

  // How far the server is with the SEND or RECV at hand.
  function Within(srv: Server): nat {
    match srv
    case Load => 1
    case Spin => 2
    case LastLook => 3
    case ReadLow => 1
    case ReadHigh(_) => 2
    case ClearNewData(_, _) => 3
    case Answer(_) => 4
    case _ => 0
  }

  function TxDone(s: State): int {
    10 * (s.tx.serial - 1) +
      match s.tx.pc
      case Waiting => 0
      case Sending => 1
      case InSend => 2 + Within(s.srv)
      case Posting => 7
      case Resting => 8
  }

  function RxDone(s: State): int {
    10 * (|s.log.got| - if Fetched(s) then 1 else 0) +
      match s.rx.pc
      case Watching => 0
      case Receiving => 1
      case InRecv => 2 + Within(s.srv)
      case Counting => 7
      case Publishing => 8
  }

  // Steps taken, and frames arrived.
  function Done(s: State): int { TxDone(s) + RxDone(s) + s.hw.low }

  // Every SEND that was decided was sent or timed out.
  predicate Decided(s: State) {
    |s.log.sent| + s.log.timeouts + 1 ==
      s.tx.serial + if s.tx.pc.Posting? || s.tx.pc.Resting? || (s.srv.Answer? && s.srv.reply.Sent?) then 1 else 0
  }

  lemma StepKeepsDecided(s: State, e: Event)
    requires HandOff(s) && Decided(s) && Enabled(s, e)
    ensures Decided(Apply(s, e))
  {
  }

  lemma ServeGoesOn(s: State, giveUp: bool)
    requires HandOff(s) && Enabled(s, Serve(giveUp))
    ensures Done(DoServe(s, giveUp)) > Done(s)
  {
  }

  lemma StepGoesOn(s: State, e: Event)
    requires HandOff(s) && InOrder(s) && Enabled(s, e)
    ensures e != Lose ==> Done(Apply(s, e)) > Done(s)
    ensures Done(Apply(s, e)) >= Done(s)
  {
    if e.Serve? {
      ServeGoesOn(s, e.giveUp);
    }
    hide DoServe;
  }

  // Events other than losses.
  function Steps(events: seq<Event>): nat {
    if events == [] then 0 else (if events[0] == Lose then 0 else 1) + Steps(events[1..])
  }

  lemma {:induction false} RunGoesOn(s: State, events: seq<Event>, t: State)
    requires Inv(s) && Decided(s) && Run(s, events, t)
    ensures Inv(t) && Decided(t) && Done(t) >= Done(s) + Steps(events)
    decreases |events|
  {
    hide Enabled, Apply, HandOff, InOrder, Paired, Lossless, Decided, Done;
    if events != [] {
      var s' := Apply(s, events[0]);
      StepKeepsDecided(s, events[0]);
      StepGoesOn(s, events[0]);
      assert Inv(s') by {
        assert [events[0]][1..] == [];
        assert Run(s, [events[0]], s');
        RunKeepsAll(s, [events[0]], s');
      }
      RunGoesOn(s', events[1..], t);
    }
  }

  // The frame has neither arrived nor can it arrive any more.
  predicate IsLost(s: State) { (s.srv.Spin? || s.srv.LastLook?) && !s.hw.txrq && !s.hw.newdat }

  // Some thread, the server or the bus can go on, and without a send timing out
  // unless its frame was lost.
  lemma NeverStuck(s: State) returns (e: Event)
    requires HandOff(s)
    ensures e != Lose && Enabled(s, e)
    ensures !IsLost(s) ==> Apply(s, e).log.timeouts == s.log.timeouts
  {
    if s.srv.Idle? {
      e := if s.tx.pc.Sending? then Accept(true) else if s.rx.pc.Receiving? then Accept(false)
           else if TxMayStep(s) then TxStep else RxStep;
    } else if s.hw.txrq && (s.srv.CheckRequest? || s.srv.Spin? || s.srv.LastLook?) {
      e := Deliver;
    } else {
      e := Serve(!s.hw.newdat);
    }
  }

  // The demonstration never stops, and the frames keep coming: a run of so many
  // steps has received one for every 21 of them, but for the last few rounds and
  // one round for each send that has timed out.
  lemma FramesKeepComing(events: seq<Event>, t: State) returns (e: Event)
    requires Run(Init(), events, t)
    ensures Steps(events) <= 21 * |t.log.got| + 11 * t.log.timeouts + 39
    ensures e != Lose && Enabled(t, e) && (!IsLost(t) ==> Apply(t, e).log.timeouts == t.log.timeouts)
  {
    InitKeepsAll();
    RunGoesOn(Init(), events, t);
    assert |t.log.sent| <= |t.log.got| + 1 && t.tx.serial <= |t.log.sent| + t.log.timeouts + 1;
    assert t.hw.low <= t.tx.serial;
    e := NeverStuck(t);
  }
}
