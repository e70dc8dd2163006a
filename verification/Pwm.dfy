// The PWM service of the Linum board: prescaler, reload and compare values for
// 16-bit timers.
module Pwm {

  const CLOCK: nat := 240_000_000
  const WORD: nat := 0x1_0000_0000
  const CHANNELS: nat := 2
  const MOST: nat := WORD - 65536      // the most ticks that do not wrap

  datatype Status = OK | EINVAL

  // ------------------------------------------------------------- arithmetic

  // In 32-bit arithmetic.
  function Prescaler(ticks: nat): nat {
    var psc := (ticks + 65535) % WORD / 65536;
    if psc == 0 then 0 else psc - 1
  }

  // The reload value for p + 1 clocks a count.
  function Reload(ticks: nat, p: nat): int { ticks / (p + 1) - 1 }

  predicate Fits(ticks: nat, p: nat) { 0 < Reload(ticks, p) <= 0xFFFF && p <= 0xFFFF }

  // A full count of 65536 covers the request.
  predicate Holds(ticks: nat, p: nat) { 65536 * (p + 1) >= ticks }

  lemma TimesGrows(a: nat, b: nat, c: nat)
    requires a <= b
    ensures a * c <= b * c && c * a <= c * b
  {
  }

  // Division by a variable, as two products.
  lemma Quotient(n: nat, d: nat) returns (q: nat)
    requires d > 0
    ensures q == n / d && d * q <= n < d * q + d && n % d == n - d * q
  {
    q := n / d;
  }

  lemma QuotientBelow(n: nat, d: nat, k: nat)
    requires d > 0
    ensures n / d < k <==> n < d * k
  {
    var q := Quotient(n, d);
    if q < k {
      TimesGrows(q + 1, k, d);
    } else {
      TimesGrows(k, q, d);
    }
  }

  // Every request of two or more ticks, short of the last 65536, is met: both
  // values fit 16 bits, and the prescaler is the least whose full range holds
  // the period.
  lemma EveryPeriodFits(ticks: nat)
    requires 2 <= ticks <= MOST
    ensures Fits(ticks, Prescaler(ticks))
    ensures forall p: nat :: Holds(ticks, p) <==> p >= Prescaler(ticks)
  {
    var k := Prescaler(ticks) + 1;
    assert 65536 * (k - 1) < ticks <= 65536 * k;
    QuotientBelow(ticks, k, 65537);
    QuotientBelow(ticks, k, 2);
    hide Prescaler;
    assert Reload(ticks, k - 1) == ticks / k - 1;
  }

  // What the timer counts is at most the request, and short of it by less than
  // one part in 65536.
  lemma PeriodIsClose(ticks: nat)
    requires 2 <= ticks <= MOST
    ensures var p := Prescaler(ticks); var got := (p + 1) * (Reload(ticks, p) + 1);
      got <= ticks && 65536 * (ticks - got) < ticks
  {
    var k := Prescaler(ticks) + 1;
    assert 65536 * (k - 1) < ticks;
    hide Prescaler;
    var q := Quotient(ticks, k);
    assert Reload(ticks, k - 1) + 1 == q;
    assert ticks - k * q <= k - 1;
  }

  // For a count of ticks alone a smaller prescaler would do exactly when rounding
  // the quotient down brings it back into range.
  lemma LeastExactly(ticks: nat)
    requires 2 <= ticks <= MOST
    ensures (forall p: nat :: Fits(ticks, p) ==> p >= Prescaler(ticks))
            <==> Prescaler(ticks) == 0 || ticks >= 65537 * Prescaler(ticks)
  {
    var psc := Prescaler(ticks);
    if psc > 0 {
      assert 65536 * psc < ticks;
      hide Prescaler;
      forall p: nat | p < psc ensures Fits(ticks, p) <==> ticks < 65537 * (p + 1) && p <= 0xFFFF {
        assert 2 * (p + 1) <= 65536 * psc;
        QuotientBelow(ticks, p + 1, 65537);
        QuotientBelow(ticks, p + 1, 2);
      }
      assert Fits(ticks, psc - 1) <==> ticks < 65537 * psc by {
        PrescalerIsSmall(ticks, psc);
      }
      forall p: nat | p < psc ensures Fits(ticks, p) ==> Fits(ticks, psc - 1) {
        assert Fits(ticks, p) ==> ticks < 65537 * (p + 1) <= 65537 * psc;
      }
    }
  }

  lemma PrescalerIsSmall(ticks: nat, psc: nat)
    requires ticks <= MOST && 65536 * psc < ticks
    ensures psc - 1 <= 0xFFFF
  {
  }

  // The frequency gives a period the timer can make.
  predicate Accepts(freq: nat) { freq > 0 && CLOCK / freq >= 2 }

  // No frequency of this clock forms such a count: for every one that is
  // accepted the prescaler is the least that works.
  lemma PrescalerIsLeast(freq: nat)
    requires Accepts(freq)
    ensures forall p: nat :: Fits(CLOCK / freq, p) ==> p >= Prescaler(CLOCK / freq)
  {
    TicksBelowClock(freq);
    var ticks, psc := CLOCK / freq, Prescaler(CLOCK / freq);
    LeastExactly(ticks);
    CoversFromBelow(ticks);
    hide Prescaler, Fits;
    if psc > 0 && ticks < 65537 * psc {
      Sandwich(CLOCK, freq, psc);
      NoSuchProduct(psc * freq);
    }
  }

  lemma CoversFromBelow(ticks: nat)
    requires 2 <= ticks <= MOST
    ensures 65536 * Prescaler(ticks) < ticks
  {
  }

  lemma Sandwich(clock: nat, freq: nat, psc: nat)
    requires freq > 0 && 65536 * psc < clock / freq < 65537 * psc
    ensures 65536 * (psc * freq) < clock < 65537 * (psc * freq)
  {
    var ticks := Quotient(clock, freq);
    TimesGrows(65536 * psc + 1, ticks, freq);
    TimesGrows(ticks + 1, 65537 * psc, freq);
    assert freq * (65536 * psc + 1) == 65536 * (psc * freq) + freq;
    assert freq * (65537 * psc) == 65537 * (psc * freq);
    assert freq * (ticks + 1) == freq * ticks + freq;
  }

  // The clock does not lie between 65536 and 65537 times any number.
  lemma NoSuchProduct(n: nat)
    ensures CLOCK <= 65536 * n || 65537 * n <= CLOCK
  {
  }

  // The compare value in 32-bit arithmetic.
  function Compare(period: nat, duty: nat): nat { (period * duty) % WORD / 1000 }

  lemma CompareIsExact(period: nat, duty: nat)
    requires period <= 0xFFFF && duty <= 1000
    ensures Compare(period, duty) == period * duty / 1000 && period * duty < WORD
    ensures 1000 * Compare(period, duty) <= period * duty < 1000 * Compare(period, duty) + 1000
  {
    TimesGrows(period, 0xFFFF, duty);
    CompareOf(period * duty);
  }

  lemma CompareOf(n: nat)
    requires n <= 0xFFFF * 1000
    ensures n % WORD == n && 1000 * (n / 1000) <= n < 1000 * (n / 1000) + 1000
  {
  }

  // For duties up to 1000 the compare value grows with the duty from zero to
  // the reload value.
  lemma CompareGrows(period: nat, d: nat, d': nat)
    requires period <= 0xFFFF && d <= d' <= 1000
    ensures Compare(period, d) <= Compare(period, d') <= period
    ensures Compare(period, 0) == 0 && Compare(period, 1000) == period
  {
    CompareIsExact(period, d);
    CompareIsExact(period, d');
    CompareIsExact(period, 1000);
    TimesGrows(d, d', period);
    TimesGrows(d', 1000, period);
  }

  // The reload value of a frequency.
  function ReloadFor(freq: nat): int
    requires freq > 0
  {
    Reload(CLOCK / freq, Prescaler(CLOCK / freq))
  }

  lemma ReloadFits(freq: nat)
    requires Accepts(freq)
    ensures 0 < ReloadFor(freq) <= 0xFFFF
  {
    TicksBelowClock(freq);
    EveryPeriodFits(CLOCK / freq);
  }

  predicate SafeAt(freq: nat, duty: nat) {
    Accepts(freq) && ReloadFor(freq) >= 0 ==> Compare(ReloadFor(freq), duty) <= ReloadFor(freq)
  }

  // A duty is safe at every frequency that is accepted exactly when it is at
  // most 1000.
  lemma SafeDutyExactly(duty: nat)
    requires duty < WORD
    ensures duty <= 1000 <==> forall freq: nat :: SafeAt(freq, duty)
  {
    if duty <= 1000 {
      forall freq: nat ensures SafeAt(freq, duty) {
        if Accepts(freq) {
          ReloadFits(freq);
          CompareGrows(ReloadFor(freq), duty, 1000);
        }
      }
    } else if duty >= 2000 {
      assert ReloadFor(120_000_000) == 1 && Compare(1, duty) == duty / 1000;
      assert !SafeAt(120_000_000, duty);
    } else {
      assert ReloadFor(120_000) == 1999 && Compare(1999, duty) == 1999 * duty / 1000;
      assert !SafeAt(120_000, duty);
    }
  }

  // -------------------------------------------------------------- the service

  datatype Channel = Channel(mapped: bool, period: nat, duty: nat, configured: bool, enabled: bool)

  // The timer registers a channel drives, and whether its output and its
  // counter are on.
  datatype Timer = Timer(psc: nat, arr: nat, ccr: nat, output: bool, running: bool)

  // Prescaler and reload divide the clock down to the frequency, with the least
  // prescaler for which the reload fits 16 bits.
  ghost predicate IsSet(freq: nat, t: Timer)
    requires freq > 0
  {
    && t.arr == CLOCK / freq / (t.psc + 1) - 1 && 0 < t.arr <= 0xFFFF && t.psc <= 0xFFFF
    && forall p: nat :: Fits(CLOCK / freq, p) ==> t.psc <= p
  }

  datatype Label = Config | Duty | Enable | Other

  // Three words; the channel is the low byte of the first.
  datatype Message = Message(kind: Label, w0: nat, w1: nat, w2: nat)

  function ChannelOf(m: Message): nat { m.w0 % 256 }

  // What a configured channel's timer holds.
  predicate Agrees(ch: Channel, t: Timer) {
    ch.configured ==>
      && ch.period == t.arr && 0 < t.arr <= 0xFFFF && t.psc <= 0xFFFF
      && t.ccr == (if ch.enabled then Compare(ch.period, ch.duty) else 0)
      && (ch.duty <= 1000 ==> t.ccr <= t.arr)
      && (t.output <==> ch.enabled)
  }

  function CompareOrOff(ch: Channel): nat { if ch.enabled then Compare(ch.period, ch.duty) else 0 }

  class Server {
    var channels: seq<Channel>
    var timers: seq<Timer>

    predicate Valid()
      reads this
    {
      && |channels| == |timers| == CHANNELS
      && forall n :: 0 <= n < CHANNELS ==>
        && Agrees(channels[n], timers[n])
        && (!channels[n].configured ==> !timers[n].output && !channels[n].enabled)
    }

    constructor ()
      ensures Tracks([]) && forall n :: 0 <= n < CHANNELS ==> channels[n] == Channel(true, 0, 0, false, false)
    {
      channels := seq(CHANNELS, _ => Channel(true, 0, 0, false, false));
      timers := seq(CHANNELS, _ => Timer(0, 0, 0, false, false));
    }

    method ApplyDuty(n: nat)
      requires n < |channels| == |timers| && channels[n].period <= 0xFFFF
      modifies this`timers
      ensures timers == old(timers)[n := old(timers)[n].(ccr := CompareOrOff(channels[n]))]
    {
      var ch := channels[n];
      var ccr := Compare(ch.period, ch.duty);
      if !ch.enabled {
        ccr := 0;
      }
      timers := timers[n := timers[n].(ccr := ccr)];
    }

    // Accepted exactly when the channel is mapped and the frequency can be made;
    // the duty is not looked at.  The counter is stopped, and stays so until the
    // next enable.
    method Configure(n: nat, freq: nat, duty: nat) returns (s: Status)
      requires Valid() && n < CHANNELS
      modifies this
      ensures Valid()
      ensures s.OK? <==> old(channels)[n].mapped && 1 <= freq <= CLOCK / 2
      ensures !s.OK? ==> channels == old(channels) && timers == old(timers)
      ensures s.OK? ==>
        && IsSet(freq, timers[n])
        && channels == old(channels)[n := old(channels)[n].(period := timers[n].arr, duty := duty, configured := true)]
        && timers == old(timers)[n := old(timers)[n].(
             running := false, psc := timers[n].psc, arr := timers[n].arr, ccr := CompareOrOff(channels[n]))]
    {
      AcceptsExactly(freq);
      if freq == 0 || !channels[n].mapped {
        return EINVAL;
      }
      var ticks := CLOCK / freq;
      if ticks < 2 {
        return EINVAL;
      }
      TicksBelowClock(freq);
      PrescalerIsLeast(freq);
      EveryPeriodFits(ticks);
      var psc := Prescaler(ticks);
      var arr := Reload(ticks, psc);
      hide Prescaler, Reload, Compare;
      if arr == 0 || arr > 0xFFFF || psc > 0xFFFF {
        return EINVAL;
      }
      channels := channels[n := channels[n].(period := arr, duty := duty, configured := true)];
      timers := timers[n := timers[n].(running := false, psc := psc, arr := arr)];
      ApplyDuty(n);
      if duty <= 1000 {
        CompareGrows(arr, duty, 1000);
      }
      s := OK;
    }

    method SetEnable(n: nat, on: bool) returns (s: Status)
      requires Valid() && n < CHANNELS
      modifies this
      ensures Valid() && (s.OK? <==> old(channels)[n].configured)
      ensures channels == if s.OK? then old(channels)[n := old(channels)[n].(enabled := on)] else old(channels)
      ensures timers == if !s.OK? then old(timers) else old(timers)[n := old(timers)[n].(
        ccr := CompareOrOff(channels[n]), output := on, running := old(timers)[n].running || on)]
    {
      if !channels[n].configured {
        return EINVAL;
      }
      channels := channels[n := channels[n].(enabled := on)];
      ApplyDuty(n);
      if channels[n].duty <= 1000 {
        CompareGrows(channels[n].period, channels[n].duty, 1000);
      }
      hide Compare;
      timers := timers[n := timers[n].(output := on, running := timers[n].running || on)];
      s := OK;
    }

    method SetDuty(n: nat, duty: nat) returns (s: Status)
      requires Valid() && n < CHANNELS
      modifies this
      ensures Valid() && (s.OK? <==> duty <= 1000 && old(channels)[n].configured)
      ensures channels == if s.OK? then old(channels)[n := old(channels)[n].(duty := duty)] else old(channels)
      ensures timers == if !s.OK? then old(timers) else old(timers)[n := old(timers)[n].(ccr := CompareOrOff(channels[n]))]
      ensures s.OK? ==> timers[n].ccr <= timers[n].arr
    {
      if duty > 1000 || !channels[n].configured {
        return EINVAL;
      }
      channels := channels[n := channels[n].(duty := duty)];
      ApplyDuty(n);
      CompareGrows(channels[n].period, duty, 1000);
      hide Compare;
      s := OK;
    }

    // The channels and their timers are what the messages so far have made them.
    ghost predicate Tracks(log: seq<Message>)
      reads this
    {
      Valid() && forall n :: 0 <= n < CHANNELS ==> IsChannel(channels[n], timers[n], log, n)
    }

    // The body of the server loop.
    method Handle(m: Message, ghost log: seq<Message>) returns (s: Status)
      requires Tracks(log)
      modifies this
      ensures Tracks(log + [m]) && (s.OK? <==> Succeeds(m, log))
    {
      ghost var before, was := channels, timers;
      var n := ChannelOf(m);
      s := EINVAL;
      if n < CHANNELS && m.kind.Config? {
        s := Configure(n, m.w1, m.w2);
      } else if n < CHANNELS && m.kind.Duty? {
        s := SetDuty(n, m.w1);
      } else if n < CHANNELS && m.kind.Enable? {
        s := SetEnable(n, m.w1 != 0);
      }
      hide CompareOrOff, IsSet;
      forall k | 0 <= k < CHANNELS ensures IsChannel(channels[k], timers[k], log + [m], k) {
        OneMore(log, m, k);
        assert IsChannel(before[k], was[k], log, k);
      }
    }

    // The server loop: after any messages the channels and their timers are what
    // the messages make them, and each message had the reply it deserved.
    method Serve(msgs: seq<Message>, ghost past: seq<Message>) returns (replies: seq<Status>)
      requires Tracks(past)
      modifies this
      ensures Tracks(past + msgs) && |replies| == |msgs|
      ensures forall i :: 0 <= i < |msgs| ==> (replies[i].OK? <==> Succeeds(msgs[i], past + msgs[..i]))
    {
      replies := [];
      var i := 0;
      assert past + msgs[..0] == past;
      while i < |msgs|
        invariant i <= |msgs| && |replies| == i && Tracks(past + msgs[..i])
        invariant forall k :: 0 <= k < i ==> (replies[k].OK? <==> Succeeds(msgs[k], past + msgs[..k]))
      {
        var s := Handle(msgs[i], past + msgs[..i]);
        assert past + msgs[..i] + [msgs[i]] == past + msgs[..i + 1];
        replies := replies + [s];
        i := i + 1;
      }
      assert msgs[..i] == msgs;
    }
  }

  // -------------------------------------------------------- what a log has made

  predicate Configures(m: Message, n: nat) {
    m.kind.Config? && m.w0 % 256 == n < CHANNELS && 1 <= m.w1 <= CLOCK / 2
  }

  predicate Dims(m: Message, n: nat) { m.kind.Duty? && m.w0 % 256 == n < CHANNELS && m.w1 <= 1000 }

  predicate Switches(m: Message, n: nat) { m.kind.Enable? && m.w0 % 256 == n < CHANNELS }

  ghost predicate IsConfigured(log: seq<Message>, n: nat) {
    exists i :: 0 <= i < |log| && Configures(log[i], n)
  }

  // What is answered OK: a CONFIG in range, and on a channel configured before,
  // a DUTY in range and every ENABLE.
  ghost predicate Succeeds(m: Message, log: seq<Message>) {
    exists n: nat :: Configures(m, n) || (IsConfigured(log, n) && (Dims(m, n) || Switches(m, n)))
  }

  // The frequency is that of the last CONFIG, the duty that of the last CONFIG
  // or DUTY, the switch that of the last ENABLE; CONFIG stops the counter and
  // switching on starts it.
  ghost function FreqOf(log: seq<Message>, n: nat): nat {
    if log == [] then 0
    else if Configures(log[|log| - 1], n) then log[|log| - 1].w1
    else FreqOf(log[..|log| - 1], n)
  }

  ghost function DutyOf(log: seq<Message>, n: nat): nat {
    if log == [] then 0
    else
      var front, m := log[..|log| - 1], log[|log| - 1];
      if Configures(m, n) then m.w2 else if Dims(m, n) && IsConfigured(front, n) then m.w1 else DutyOf(front, n)
  }

  ghost predicate IsOn(log: seq<Message>, n: nat) {
    if log == [] then false
    else
      var front, m := log[..|log| - 1], log[|log| - 1];
      if Switches(m, n) && IsConfigured(front, n) then m.w1 != 0 else IsOn(front, n)
  }

  ghost predicate Counts(log: seq<Message>, n: nat) {
    if log == [] then false
    else
      var front, m := log[..|log| - 1], log[|log| - 1];
      if Configures(m, n) then false
      else Counts(front, n) || (Switches(m, n) && m.w1 != 0 && IsConfigured(front, n))
  }

  ghost predicate IsChannel(ch: Channel, t: Timer, log: seq<Message>, n: nat) {
    && ch.mapped && (ch.configured <==> IsConfigured(log, n))
    && ch.duty == DutyOf(log, n) && (ch.enabled <==> IsOn(log, n))
    && (t.output <==> IsOn(log, n)) && (t.running <==> Counts(log, n))
    && (ch.configured ==>
          && 1 <= FreqOf(log, n) <= CLOCK / 2 && IsSet(FreqOf(log, n), t)
          && ch.period == t.arr && t.ccr == CompareOrOff(ch))
  }

  // What one more message does to all that.
  lemma OneMore(log: seq<Message>, m: Message, n: nat)
    ensures IsConfigured(log + [m], n) <==> IsConfigured(log, n) || Configures(m, n)
    ensures FreqOf(log + [m], n) == if Configures(m, n) then m.w1 else FreqOf(log, n)
    ensures DutyOf(log + [m], n) ==
            if Configures(m, n) then m.w2 else if Dims(m, n) && IsConfigured(log, n) then m.w1 else DutyOf(log, n)
    ensures IsOn(log + [m], n) <==> if Switches(m, n) && IsConfigured(log, n) then m.w1 != 0 else IsOn(log, n)
    ensures Counts(log + [m], n) <==>
            !Configures(m, n) && (Counts(log, n) || (Switches(m, n) && m.w1 != 0 && IsConfigured(log, n)))
  {
    var all := log + [m];
    assert all[..|log|] == log && all[|log|] == m;
    if i :| 0 <= i < |log| && Configures(log[i], n) {
      assert all[i] == log[i];
    }
  }

  // A CONFIG and an ENABLE, both answered OK, that leave the compare value above
  // the reload value.
  method ConfigExceedsReload() returns (server: Server, s: Status, s': Status)
    ensures s == OK && s' == OK && |server.timers| == CHANNELS
    ensures server.timers[0].ccr == 2 > server.timers[0].arr == 1
  {
    server := new Server();
    s := server.Configure(0, 120_000_000, 2000);
    s' := server.SetEnable(0, true);
  }

  lemma TicksBelowClock(freq: nat)
    requires freq > 0
    ensures CLOCK / freq <= CLOCK
  {
    var q := Quotient(CLOCK, freq);
    TimesGrows(1, freq, q);
  }

  // All frequencies from one hertz to half the timer clock can be made, and no
  // others.
  lemma AcceptsExactly(freq: nat)
    ensures Accepts(freq) <==> 1 <= freq <= CLOCK / 2
  {
    if freq > 0 {
      QuotientBelow(CLOCK, freq, 2);
    }
  }
}