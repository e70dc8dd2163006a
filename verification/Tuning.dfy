// PSRAM timing tuning: the longest window of passing settings and the point
// that is taken from it.
module Tuning {

  const PHASES: nat := 4
  const DELAYS: nat := 31
  const SWEEPS: nat := 100
  const AXI_SWEEPS: nat := 8

  // len entries from start on are all what is needed.
  predicate IsRun(good: seq<nat>, need: nat, start: nat, len: nat) {
    start + len <= |good| && forall i :: start <= i < start + len ==> good[i] == need
  }

  // len and end are those of the first longest run in the first n entries.
  ghost predicate Longest(good: seq<nat>, need: nat, n: nat, len: nat, end: nat) {
    && n <= |good|
    && (len == 0 ==> end == 0)
    && (len > 0 ==> len <= end + 1 <= n && IsRun(good, need, end + 1 - len, len))
    && (forall s: nat, l: nat :: s + l <= n && IsRun(good, need, s, l) ==>
          l <= len && (l == len > 0 ==> s >= end + 1 - len))
  }

  // The run that ends at n, and cannot be extended to the left.
  predicate Trailing(good: seq<nat>, need: nat, n: nat, run: nat) {
    run <= n <= |good| && IsRun(good, need, n - run, run) && (run < n ==> good[n - run - 1] != need)
  }

  lemma RunsStopAtBreak(good: seq<nat>, need: nat, n: nat, run: nat, s: nat, l: nat)
    requires Trailing(good, need, n, run) && IsRun(good, need, s, l) && s + l <= n && l > 0
    ensures s + l < n - run || s >= n - run
  {
    if run < n && s <= n - run - 1 < s + l {
      assert false;
    }
  }

  // The best of a finished part and the run behind it.
  lemma Merge(good: seq<nat>, need: nat, n: nat, run: nat, len: nat, end: nat)
    requires Trailing(good, need, n, run) && Longest(good, need, n - run, len, end)
    ensures run <= len ==> Longest(good, need, n, len, end)
    ensures run > len ==> Longest(good, need, n, run, n - 1)
  {
    forall s: nat, l: nat | s + l <= n && IsRun(good, need, s, l) && l > 0
      ensures (l <= run && s >= n - run) || (l <= len && s + l <= n - run)
    {
      RunsStopAtBreak(good, need, n, run, s, l);
    }
  }

  method FindWindow(good: array<nat>, need: nat) returns (len: nat, end: nat)
    ensures Longest(good[..], need, good.Length, len, end)
  {
    var max, run := 0, 0;
    end := 0;
    var i := 0;
    while i < good.Length
      invariant 0 <= run <= i <= good.Length
      invariant Trailing(good[..], need, i, run) && Longest(good[..], need, i - run, max, end)
    {
      if good[i] == need {
        run := run + 1;
      } else {
        Merge(good[..], need, i, run, max, end);
        if run > max {
          max := run;
          end := i - 1;
        }
        PastBreak(good[..], need, i, max, end);
        run := 0;
      }
      i := i + 1;
    }
    Merge(good[..], need, i, run, max, end);
    if run > max {
      max := run;
      end := good.Length - 1;
    }
    len := max;
  }

  lemma PastBreak(good: seq<nat>, need: nat, n: nat, len: nat, end: nat)
    requires n < |good| && good[n] != need && Longest(good, need, n, len, end)
    ensures Longest(good, need, n + 1, len, end)
  {
  }

  // There is one answer only.
  lemma LongestIsUnique(good: seq<nat>, need: nat, n: nat, len: nat, end: nat, len': nat, end': nat)
    requires Longest(good, need, n, len, end) && Longest(good, need, n, len', end')
    ensures len == len' && end == end'
  {
    if len > 0 {
      assert IsRun(good, need, end + 1 - len, len);
    }
    if len' > 0 {
      assert IsRun(good, need, end' + 1 - len', len');
    }
  }

  // ------------------------------------------------------------------- tuning

  datatype Delay = Delay(data: nat, dqs: nat)

  // The delay table.
  const TABLE: seq<Delay> := [
    Delay(0, 15), Delay(0, 14), Delay(0, 13), Delay(0, 12), Delay(0, 11), Delay(0, 10), Delay(0, 9),
    Delay(0, 8), Delay(0, 7), Delay(0, 6), Delay(0, 5), Delay(0, 4), Delay(0, 3), Delay(0, 2), Delay(0, 1),
    Delay(0, 0), Delay(1, 0), Delay(2, 0), Delay(3, 0), Delay(4, 0), Delay(5, 0), Delay(6, 0), Delay(7, 0),
    Delay(8, 0), Delay(9, 0), Delay(10, 0), Delay(11, 0), Delay(12, 0), Delay(13, 0), Delay(14, 0),
    Delay(15, 0)]

  function DelayAt(i: nat): Delay
    requires i < DELAYS
  {
    TABLE[i]
  }

  // One step of the table is one step of the data against the strobe, and one of
  // the two always stands at zero; so a window is a range of that difference.
  lemma TableIsALine(i: nat)
    requires i < DELAYS
    ensures var d := DelayAt(i); d.data - d.dqs == i - 15 && (d.data == 0 || d.dqs == 0)
  {
  }

  // The middle of a window, on the left where there are two.
  function Middle(len: nat, end: nat): (m: nat)
    requires 0 < len <= end + 1
    ensures end + 1 - len <= m <= end
    ensures var before, after := m - (end + 1 - len), end - m;
      before <= after <= before + 1
  {
    end - len / 2
  }

  // The device: whether the n-th read of the reference pattern comes back right
  // with the given phase and delay in the registers.
  type Device = (nat, nat, Delay) -> bool

  // How many of n reads at one setting come back right, the first of them being
  // number `from`.
  function Right(device: Device, from: nat, n: nat, phase: nat, delay: Delay): (r: nat)
    ensures r <= n
  {
    if n == 0 then 0
    else Right(device, from, n - 1, phase, delay) + if device(from + n - 1, phase, delay) then 1 else 0
  }

  // The number of the first read at setting i when every setting is read
  // `times` times.
  function FirstRead(from: nat, times: nat, i: nat): nat {
    if i == 0 then from else FirstRead(from, times, i - 1) + times
  }

  // The right reads of every phase, read once each, and of every delay.
  function PhaseHits(device: Device, from: nat, delay: Delay): seq<nat> {
    seq(PHASES, i requires 0 <= i < PHASES => Right(device, FirstRead(from, 1, i), 1, i, delay))
  }

  function DelayHits(device: Device, from: nat, times: nat, phase: nat): seq<nat> {
    seq(DELAYS, i requires 0 <= i < DELAYS => Right(device, FirstRead(from, times, i), times, phase, DelayAt(i)))
  }

  // The phase a sweep is to take: the first of a longest run, if any is right.
  ghost predicate GoodPhase(good: seq<nat>, pick: nat) {
    && |good| == PHASES && pick < PHASES
    && ((exists i :: 0 <= i < PHASES && good[i] == 1) <==> good[pick] == 1)
    && if good[pick] == 1 then StartsLongest(good, 1, PHASES, pick) else pick == 0
  }

  // The delay a sweep is to take: the middle of the longest window of delays
  // that always read right; the first one when no window has two.
  ghost predicate GoodDelay(good: seq<nat>, need: nat, pick: nat) {
    && pick < DELAYS == |good|
    && if HasWindow(good, need) then InMiddle(good, need, pick) else pick == 0
  }

  class Tuner {
    const device: Device
    var count: nat          // the reads made so far
    var bestPhase: nat
    var best: Delay
    var phase: nat          // what the registers hold
    var delay: Delay

    predicate Valid()
      reads this
    {
      bestPhase < PHASES
    }

    constructor (device: Device)
      ensures Valid() && this.device == device && count == 0 && bestPhase == 0
    {
      this.device := device;
      count, bestPhase, best, phase, delay := 0, 0, Delay(0, 0), 0, Delay(0, 0);
    }

    // One read of the reference pattern.
    method ReadMatches() returns (ok: bool)
      modifies this`count
      ensures ok == device(old(count), phase, delay) && count == old(count) + 1
    {
      ok := device(count, phase, delay);
      count := count + 1;
    }

    method CountHits(times: nat) returns (hits: nat)
      modifies this`count
      ensures hits == Right(device, old(count), times, phase, delay) && count == old(count) + times
    {
      hits := 0;
      var t := 0;
      while t < times
        invariant t <= times && hits == Right(device, old(count), t, phase, delay) && count == old(count) + t
      {
        var ok := ReadMatches();
        if ok {
          hits := hits + 1;
        }
        t := t + 1;
      }
    }

    // The first phase of the longest window of phases that read right.
    method SweepPhase()
      modifies this
      ensures Valid() && phase == bestPhase && best == old(best) && delay == old(delay)
      ensures count == old(count) + PHASES && GoodPhase(PhaseHits(device, old(count), delay), bestPhase)
    {
      var a := new nat[PHASES];
      ghost var from := count;
      var i := 0;
      while i < PHASES
        invariant i <= PHASES && best == old(best) && delay == old(delay)
        invariant count == FirstRead(from, 1, i) == from + i
        invariant forall k :: 0 <= k < i ==> a[k] == Right(device, FirstRead(from, 1, k), 1, k, delay)
      {
        phase := i;
        a[i] := CountHits(1);
        i := i + 1;
      }
      assert a[..] == PhaseHits(device, from, delay);
      var len, end := FindWindow(a, 1);
      PhaseIsGood(a[..], len, end);
      bestPhase := if len == 0 then 0 else end + 1 - len;
      phase := bestPhase;
    }

    // The right reads of every delay setting.
    method SweepDelays(times: nat) returns (a: array<nat>)
      modifies this`delay, this`count
      ensures fresh(a) && a[..] == DelayHits(device, old(count), times, phase)
      ensures count == FirstRead(old(count), times, DELAYS)
    {
      hide Right, DelayAt, DelayHits;
      a := new nat[DELAYS];
      ghost var from := count;
      var i := 0;
      while i < DELAYS
        invariant i <= DELAYS && fresh(a) && count == FirstRead(from, times, i)
        invariant forall k :: 0 <= k < i ==> a[k] == Right(device, FirstRead(from, times, k), times, phase, DelayAt(k))
      {
        delay := DelayAt(i);
        var hits := CountHits(times);
        a[i] := hits;
        NextFirst(from, times, i);
        i := i + 1;
      }
      AreDelayHits(a[..], device, from, times, phase);
    }

    method SweepDelayline() returns (ghost pick: nat)
      requires Valid()
      modifies this
      ensures Valid() && bestPhase == old(bestPhase) == phase && delay == best
      ensures GoodDelay(DelayHits(device, old(count), SWEEPS, bestPhase), SWEEPS, pick) && best == DelayAt(pick)
      ensures count == FirstRead(old(count), SWEEPS, DELAYS)
    {
      phase := bestPhase;
      var a := SweepDelays(SWEEPS);
      var len, end := FindWindow(a, SWEEPS);
      WindowExactly(a[..], SWEEPS, len, end);
      var index := if len <= 1 then 0 else Middle(len, end);
      pick := index;
      best := DelayAt(index);
      delay := best;
    }

    // Both sweeps from cleared settings, and one more read.
    method Tune() returns (ok: bool, ghost pick: nat)
      modifies this
      ensures Valid() && phase == bestPhase && pick < DELAYS && delay == best == DelayAt(pick)
      ensures GoodPhase(PhaseHits(device, old(count), Delay(0, 0)), bestPhase)
      ensures GoodDelay(DelayHits(device, old(count) + PHASES, SWEEPS, bestPhase), SWEEPS, pick)
      ensures ok == device(FirstRead(old(count) + PHASES, SWEEPS, DELAYS), phase, delay)
    {
      hide GoodPhase, GoodDelay, PhaseHits, DelayHits, DelayAt, FirstRead;
      phase, delay := 0, Delay(0, 0);
      SweepPhase();
      pick := SweepDelayline();
      phase, delay := bestPhase, best;
      ok := ReadMatches();
    }

    // The same over the cached window; without a window of two the earlier
    // setting is kept and applied again.
    method Refine(base: nat, nbytes: nat) returns (ok: bool, ghost pick: nat)
      requires Valid()
      modifies this
      ensures Valid() && bestPhase == old(bestPhase)
      ensures base == 0 || nbytes < 64 ==>
        !ok && best == old(best) && delay == old(delay) && phase == old(phase) && count == old(count)
      ensures base != 0 && nbytes >= 64 ==>
        var good := DelayHits(device, old(count), AXI_SWEEPS, bestPhase);
        && phase == bestPhase && delay == best && (ok <==> HasWindow(good, AXI_SWEEPS))
        && if ok then GoodDelay(good, AXI_SWEEPS, pick) && best == DelayAt(pick) else best == old(best)
    {
      pick := 0;
      if base == 0 || nbytes < 64 {
        return false, pick;
      }
      phase := bestPhase;
      var a := SweepDelays(AXI_SWEEPS);
      var len, end := FindWindow(a, AXI_SWEEPS);
      WindowExactly(a[..], AXI_SWEEPS, len, end);
      if len <= 1 {
        phase := bestPhase;
        delay := best;
        return false, pick;
      }
      var index := Middle(len, end);
      pick := index;
      best := DelayAt(index);
      phase := bestPhase;
      delay := best;
      ok := true;
    }
  }

  lemma AreDelayHits(good: seq<nat>, device: Device, from: nat, times: nat, phase: nat)
    requires |good| == DELAYS
    requires forall k :: 0 <= k < DELAYS ==>
      good[k] == Right(device, FirstRead(from, times, k), times, phase, DelayAt(k))
    ensures good == DelayHits(device, from, times, phase)
  {
    hide Right, DelayAt, FirstRead;
  }

  lemma NextFirst(from: nat, times: nat, i: nat)
    ensures FirstRead(from, times, i + 1) == FirstRead(from, times, i) + times
  {
  }

  lemma PhaseIsGood(good: seq<nat>, len: nat, end: nat)
    requires |good| == PHASES && Longest(good, 1, PHASES, len, end)
    ensures len == 0 || len <= end + 1
    ensures GoodPhase(good, if len == 0 then 0 else end + 1 - len)
  {
    forall k | 0 <= k < PHASES && good[k] == 1 ensures len > 0 {
      assert IsRun(good, 1, k, 1);
    }
  }

  // A longest run starts at s.
  ghost predicate StartsLongest(good: seq<nat>, need: nat, n: nat, s: nat) {
    exists len: nat, end: nat :: 0 < len && s + len == end + 1 <= n && Longest(good, need, n, len, end)
  }

  // Two neighbouring settings are both good.
  ghost predicate HasWindow(good: seq<nat>, need: nat) {
    exists i: nat :: IsRun(good, need, i, 2)
  }

  // The setting is in the longest run, and its distances from both ends differ
  // by at most one.
  ghost predicate InMiddle(good: seq<nat>, need: nat, pick: nat) {
    exists len: nat, end: nat :: 0 < len <= end + 1 && Longest(good, need, |good|, len, end) && pick == Middle(len, end)
  }

  lemma WindowExactly(good: seq<nat>, need: nat, len: nat, end: nat)
    requires Longest(good, need, |good|, len, end)
    ensures len >= 2 <==> HasWindow(good, need)
    ensures len >= 2 ==> InMiddle(good, need, Middle(len, end)) && end < |good|
  {
    if len >= 2 {
      assert IsRun(good, need, end + 1 - len, 2);
    }
  }

  // The setting the delay sweep takes is a good one, if and only if there is a
  // window of two or the first setting is good: a single good setting elsewhere
  // is passed over.
  lemma PickIsGoodExactly(good: seq<nat>, need: nat, pick: nat)
    requires |good| > 0 && (if HasWindow(good, need) then InMiddle(good, need, pick) else pick == 0)
    ensures pick < |good| && (good[pick] == need <==> HasWindow(good, need) || good[0] == need)
  {
    if HasWindow(good, need) {
      var len: nat, end: nat :| 0 < len <= end + 1 && Longest(good, need, |good|, len, end) && pick == Middle(len, end);
      assert IsRun(good, need, end + 1 - len, len);
    }
  }

  // If the device depends on the setting alone, a read counts right at a setting
  // exactly if the setting works, and every sweep says which ones do.
  lemma {:induction false} SteadyDevice(device: Device, works: (nat, Delay) -> bool, from: nat, n: nat, phase: nat,
                                        delay: Delay)
    requires forall k: nat, p: nat, d: Delay :: device(k, p, d) == works(p, d)
    ensures Right(device, from, n, phase, delay) == if works(phase, delay) then n else 0
  {
    if n > 0 {
      SteadyDevice(device, works, from, n - 1, phase, delay);
    }
  }

  lemma NoWindowOfTwo(good: seq<nat>, need: nat)
    requires forall i :: 0 <= i < |good| - 1 ==> good[i] != need || good[i + 1] != need
    ensures !HasWindow(good, need)
  {
    forall i: nat ensures !IsRun(good, need, i, 2) {
      if i + 2 <= |good| {
        assert good[i] != need || good[i + 1] != need;
      }
    }
  }

  lemma SixthIs(i: nat)
    requires i < DELAYS
    ensures DelayAt(i) == Delay(0, 10) <==> i == 5
  {
    TableIsALine(i);
  }

  // A device on which exactly one delay reads right, and which the sweep leaves
  // at another.
  method SingleGoodDelayIsPassedOver() returns (tuner: Tuner)
    ensures tuner.best == Delay(0, 15)
    ensures forall n: nat, p: nat, d: Delay :: tuner.device(n, p, d) <==> d == Delay(0, 10)
  {
    tuner := new Tuner((n, p, d) => d == Delay(0, 10));
    ghost var good := DelayHits(tuner.device, 0, SWEEPS, 0);
    hide DelayAt, Right, FirstRead;
    forall i | 0 <= i < DELAYS ensures good[i] == if i == 5 then SWEEPS else 0 {
      SixthIs(i);
      SteadyDevice(tuner.device, (p, d) => d == Delay(0, 10), FirstRead(0, SWEEPS, i), SWEEPS, 0, DelayAt(i));
    }
    NoWindowOfTwo(good, SWEEPS);
    assert DelayAt(0) == Delay(0, 15) by {
      TableIsALine(0);
    }
    hide HasWindow, DelayHits;
    ghost var pick := tuner.SweepDelayline();
  }
}
