// What the cache operations do to one line, and when memory and processor agree.
module CacheLines {
  type Data = seq<bv8>

  datatype Copy = Absent | Present(data: Data, dirty: bool)

  // Memory and the copies of a line in the two cache levels.
  datatype Line = Line(l1: Copy, l2: Copy, mem: Data)

  datatype Level = L1 | L2

  datatype Trigger = WriteBack | Invalidate

  // What a load reads, and what it would read without the first level.
  function CpuView(s: Line): Data {
    if s.l1.Present? then s.l1.data else BelowL1(s)
  }

  function BelowL1(s: Line): Data {
    if s.l2.Present? then s.l2.data else s.mem
  }

  // A write-back pushes a dirty line one level down only.  Lines that bypass
  // the second level go straight to memory.
  function Touch(s: Line, level: Level, t: Trigger, viaL2: bool): Line {
    match (level, t)
    case (L1, Invalidate) => s.(l1 := Absent)
    case (L2, Invalidate) => s.(l2 := Absent)
    case (L1, WriteBack) =>
      if !(s.l1.Present? && s.l1.dirty) then s
      else if viaL2 then s.(l1 := s.l1.(dirty := false), l2 := Present(s.l1.data, true))
      else s.(l1 := s.l1.(dirty := false), mem := s.l1.data)
    case (L2, WriteBack) =>
      if !(s.l2.Present? && s.l2.dirty) then s
      else s.(l2 := s.l2.(dirty := false), mem := s.l2.data)
  }

  // A line is either served by both levels or never in the second.
  predicate Placed(s: Line, viaL2: bool) { !viaL2 ==> s.l2.Absent? }

  // First level, then the second where the line has one.
  function Maintained(s: Line, t: Trigger, viaL2: bool): Line {
    var s1 := Touch(s, L1, t, viaL2);
    if viaL2 then Touch(s1, L2, t, viaL2) else s1
  }

  // What a write-back will leave in memory when the first level has nothing
  // newer to say.
  function Older(s: Line): Data {
    if s.l2.Present? && s.l2.dirty then s.l2.data else s.mem
  }

  // A clean copy still is what it was filled from: no device has written the
  // line in memory since.
  predicate Honest(s: Line) {
    && (s.l1.Present? && !s.l1.dirty ==> s.l1.data == Older(s))
    && (s.l1.Absent? && s.l2.Present? && !s.l2.dirty ==> s.l2.data == s.mem)
  }

  predicate Agrees(s: Line) { s.mem == CpuView(s) }

  // After a write-back the device reads what the processor reads, if and only
  // if the line had no stale clean copy; the processor's view never changes.
  lemma WriteBackAgreesExactly(s: Line, viaL2: bool)
    requires Placed(s, viaL2)
    ensures Agrees(Maintained(s, WriteBack, viaL2)) <==> Honest(s)
    ensures CpuView(Maintained(s, WriteBack, viaL2)) == CpuView(s)
    ensures Placed(Maintained(s, WriteBack, viaL2), viaL2)
  {
  }

  // Memory once both copies have been evicted.
  function Spilled(s: Line): Data {
    if s.l1.Present? && s.l1.dirty then s.l1.data
    else if s.l2.Present? && s.l2.dirty then s.l2.data
    else s.mem
  }

  // After a write-back or an invalidate no eviction overwrites what a device
  // then writes.
  lemma NothingIsSpilled(s: Line, t: Trigger, viaL2: bool, d: Data)
    requires Placed(s, viaL2)
    ensures Spilled(Maintained(s, t, viaL2).(mem := d)) == d
  {
  }

  // A line that fails: a clean copy that a device has overwritten in memory is
  // not written back, so that memory keeps what the processor does not see.
  lemma StaleCopyStays()
    ensures var s := Line(Present([1], false), Absent, [0]);
      var t := Maintained(s, WriteBack, false);
      !Honest(s) && t.mem == [0] && CpuView(t) == [1]
  {
  }

  // After an invalidate the processor reads what the device wrote, always.
  lemma InvalidateAgrees(s: Line, viaL2: bool)
    requires Placed(s, viaL2)
    ensures Agrees(Maintained(s, Invalidate, viaL2)) && Maintained(s, Invalidate, viaL2).mem == s.mem
  {
  }

  // The other order: a line that is dirty in the first level gets no further
  // than the second, and the device reads the older bytes.
  lemma SecondLevelFirstExactly(s: Line)
    requires Honest(s)
    ensures var t := Touch(Touch(s, L2, WriteBack, true), L1, WriteBack, true);
      Agrees(t) <==> (s.l1.Present? && s.l1.dirty ==> s.l1.data == Older(s))
  {
  }

  // Write-back before invalidate keeps what the processor wrote; invalidate
  // alone keeps it exactly when memory had it already.
  lemma CleanThenInvalidate(s: Line, viaL2: bool)
    requires Placed(s, viaL2) && Honest(s)
    ensures var t := Maintained(Maintained(s, WriteBack, viaL2), Invalidate, viaL2);
      Agrees(t) && CpuView(t) == CpuView(s)
    ensures CpuView(Maintained(s, Invalidate, viaL2)) == CpuView(s) <==> Agrees(s)
  {
  }
}

// Range maintenance of the EV-function board.
module CacheSync {
  import opened CacheLines

  const LINE: nat := 64
  const CHUNK: nat := 0x1000
  const EXT_LO: nat := 0x40000000
  const EXT_HI: nat := 0x4C000000
  const SRAM_LO: nat := 0x4FF00000
  const SRAM_HI: nat := 0x4FFC0000
  const LINES: nat := 0x400_0000      // 64-byte lines of the 32-bit space

  // sync_map_for: which levels a range that starts at a is sent to.
  datatype Map = Nowhere | OnlyL1 | Both

  function MapFor(a: nat): Map {
    if EXT_LO <= a < EXT_HI then Both
    else if SRAM_LO <= a < SRAM_HI then OnlyL1
    else Nowhere
  }

  // Flash and PSRAM, and the internal memory.
  predicate External(a: nat) { 0x4000_0000 <= a < 0x4C00_0000 }

  predicate Internal(a: nat) { 0x4FF0_0000 <= a < 0x4FFC_0000 }

  // Whether line i goes through the second level.
  predicate ViaL2(i: nat) { MapFor(64 * i).Both? }

  // One command of the sync engine.
  datatype Op = Op(level: Level, trigger: Trigger, a: nat, len: nat)

  predicate Covers(op: Op, i: nat) { op.a <= 64 * i < op.a + op.len }

  function Down(a: nat): nat { a - a % 64 }

  // The end of the rounded range in 32-bit arithmetic.
  function RoundedEnd(a: nat, size: nat): nat { Down((a + size + 63) % 0x1_0000_0000) }

  predicate InWindow(a: nat, size: nat) {
    (EXT_LO <= a && a + size <= EXT_HI) || (SRAM_LO <= a && a + size <= SRAM_HI)
  }

  // The commands of one chunk, sent with interrupts masked.
  function Chunk(t: Trigger, map_: Map, a: nat, n: nat): seq<Op> {
    [Op(L1, t, a, n)] + if map_.Both? then [Op(L2, t, a, n)] else []
  }

  // The commands for the lines from a to end.
  function Tiles(t: Trigger, map_: Map, a: nat, end: nat): seq<Op>
    decreases end - a
  {
    if a >= end then []
    else
      var n := if end - a > CHUNK then CHUNK else end - a;
      Chunk(t, map_, a, n) + Tiles(t, map_, a + n, end)
  }

  // How many commands of one level cover line i.
  function Count(ops: seq<Op>, level: Level, i: nat): nat {
    if ops == [] then 0
    else (if ops[0].level == level && Covers(ops[0], i) then 1 else 0) + Count(ops[1..], level, i)
  }

  // ------------------------------------------------------------- what is sent

  lemma {:induction false} CountOfTwo(a: seq<Op>, b: seq<Op>, level: Level, i: nat)
    ensures Count(a + b, level, i) == Count(a, level, i) + Count(b, level, i)
  {
    if a == [] {
      assert a + b == b;
    } else {
      CountOfTwo(a[1..], b, level, i);
      assert (a + b)[1..] == a[1..] + b;
    }
  }

  predicate Aligned(a: nat) { a % 64 == 0 }

  lemma CountChunk(t: Trigger, map_: Map, a: nat, n: nat, i: nat)
    ensures Count(Chunk(t, map_, a, n), L1, i) == if a <= 64 * i < a + n then 1 else 0
    ensures Count(Chunk(t, map_, a, n), L2, i) == if map_.Both? && a <= 64 * i < a + n then 1 else 0
  {
    CountOne(Op(L1, t, a, n), L1, i);
    CountOne(Op(L1, t, a, n), L2, i);
    if map_.Both? {
      CountOne(Op(L2, t, a, n), L1, i);
      CountOne(Op(L2, t, a, n), L2, i);
      CountOfTwo([Op(L1, t, a, n)], [Op(L2, t, a, n)], L1, i);
      CountOfTwo([Op(L1, t, a, n)], [Op(L2, t, a, n)], L2, i);
    } else {
      assert Chunk(t, map_, a, n) == [Op(L1, t, a, n)];
    }
  }

  lemma CountOne(op: Op, level: Level, i: nat)
    ensures Count([op], level, i) == if op.level == level && Covers(op, i) then 1 else 0
  {
    assert [op][1..] == [];
  }

  // Every line of the range is sent to each of its levels exactly once, and no
  // other line is sent anywhere.
  lemma {:induction false} TilesCoverOnce(t: Trigger, map_: Map, a: nat, end: nat, i: nat)
    ensures Count(Tiles(t, map_, a, end), L1, i) == if a <= 64 * i < end then 1 else 0
    ensures Count(Tiles(t, map_, a, end), L2, i) == if map_.Both? && a <= 64 * i < end then 1 else 0
    decreases end - a
  {
    if a < end {
      var n := if end - a > CHUNK then CHUNK else end - a;
      assert Tiles(t, map_, a, end) == Chunk(t, map_, a, n) + Tiles(t, map_, a + n, end);
      TilesCoverOnce(t, map_, a + n, end, i);
      CountChunk(t, map_, a, n, i);
      CountOfTwo(Chunk(t, map_, a, n), Tiles(t, map_, a + n, end), L1, i);
      CountOfTwo(Chunk(t, map_, a, n), Tiles(t, map_, a + n, end), L2, i);
      hide Tiles, Chunk, Count;
    } else {
      assert Tiles(t, map_, a, end) == [];
    }
  }

  // A command of at most 4 KiB on whole lines inside the range.
  predicate Proper(op: Op, t: Trigger, a: nat, end: nat) {
    op.trigger == t && a <= op.a && op.a + op.len <= end && 0 < op.len <= CHUNK && Aligned(op.a) && Aligned(op.len)
  }

  // Each second-level command repeats the first-level command before it.
  predicate FirstThenSecond(ops: seq<Op>) {
    forall k :: 0 <= k < |ops| && ops[k].level.L2? ==> k > 0 && ops[k - 1] == ops[k].(level := L1)
  }

  lemma {:induction false} TilesAreProper(t: Trigger, map_: Map, a: nat, end: nat)
    requires Aligned(a) && Aligned(end)
    ensures forall op :: op in Tiles(t, map_, a, end) ==> Proper(op, t, a, end)
    ensures FirstThenSecond(Tiles(t, map_, a, end))
    ensures a < end ==> Tiles(t, map_, a, end)[0].level.L1?
    decreases end - a
  {
    if a < end {
      var n := if end - a > CHUNK then CHUNK else end - a;
      assert Aligned(n) && Aligned(a + n);
      TilesAreProper(t, map_, a + n, end);
      var chunk, rest := Chunk(t, map_, a, n), Tiles(t, map_, a + n, end);
      assert Tiles(t, map_, a, end) == chunk + rest;
      ChunkIsProper(t, map_, a, n, end);
      hide Tiles, Chunk, Aligned;
      PairsJoin(chunk, rest);
    }
  }

  lemma ChunkIsProper(t: Trigger, map_: Map, a: nat, n: nat, end: nat)
    requires Aligned(a) && Aligned(n) && 0 < n <= CHUNK && a + n <= end
    ensures forall op :: op in Chunk(t, map_, a, n) ==> Proper(op, t, a, end)
    ensures FirstThenSecond(Chunk(t, map_, a, n)) && Chunk(t, map_, a, n)[0].level.L1?
  {
    hide Aligned;
  }

  lemma PairsJoin(a: seq<Op>, b: seq<Op>)
    requires FirstThenSecond(a) && FirstThenSecond(b)
    ensures FirstThenSecond(a + b)
  {
    var ops := a + b;
    forall k | 0 <= k < |ops| && ops[k].level.L2? ensures k > 0 && ops[k - 1] == ops[k].(level := L1) {
      if k >= |a| {
        assert ops[k] == b[k - |a|] && ops[k - 1] == b[k - |a| - 1];
      }
    }
  }

  // The end is rounded up, modulo the size of the space; a range that wraps is
  // not maintained at all, unless it is the whole space and more.
  lemma SentExactly(t: Trigger, map_: Map, a: nat, size: nat)
    requires a < 0x5000_0000 && 0 < size < 0x1_0000_0000
    ensures var end := RoundedEnd(a, size) + if a + size + 63 < 0x1_0000_0000 then 0 else 0x1_0000_0000;
      end % 64 == 0 && a + size <= end < a + size + 64
    ensures Tiles(t, map_, Down(a), RoundedEnd(a, size)) == [] <==>
      a + size + 63 >= 0x1_0000_0000 && a % 64 + size <= 0x1_0000_0000
  {
    RoundsUp(a, size);
    RoundsDown(a);
    var end := RoundedEnd(a, size);
    assert Tiles(t, map_, Down(a), end) == [] <==> Down(a) >= end by {
      hide Down, RoundedEnd;
    }
    hide Down, RoundedEnd, Tiles;
  }

  lemma RoundsUp(a: nat, size: nat)
    requires a < 0x5000_0000 && 0 < size < 0x1_0000_0000
    ensures var end := RoundedEnd(a, size) + if a + size + 63 < 0x1_0000_0000 then 0 else 0x1_0000_0000;
      end % 64 == 0 && a + size <= end < a + size + 64
  {
  }

  lemma RoundsDown(a: nat)
    ensures Down(a) == a - a % 64 && Down(a) % 64 == 0
  {
  }

  // ------------------------------------------------------------ what is given

  // Some second-level command reaches internal memory, which it must not.
  predicate Wedges(ops: seq<Op>) {
    exists k :: 0 <= k < |ops| && ops[k].level.L2? && ops[k].a < SRAM_HI && SRAM_LO < ops[k].a + ops[k].len
  }

  // Only a range that starts in external memory and runs on into the internal
  // one wedges the engine.
  lemma WedgesExactly(t: Trigger, a: nat, size: nat)
    requires MapFor(a) != Nowhere && size > 0 && a + size + 63 < 0x1_0000_0000
    ensures Wedges(Tiles(t, MapFor(a), Down(a), RoundedEnd(a, size))) <==> EXT_LO <= a < EXT_HI && SRAM_LO < a + size
  {
    var map_, start, end := MapFor(a), Down(a), RoundedEnd(a, size);
    assert Aligned(start) && Aligned(end) && start <= a < start + 64 && a + size <= end < a + size + 64;
    hide Down, RoundedEnd;
    if map_.Both? && SRAM_LO < a + size {
      ReachesInternal(t, map_, start, end);
    }
    forall k | 0 <= k < |Tiles(t, map_, start, end)| && Tiles(t, map_, start, end)[k].level.L2?
      ensures map_.Both? && Tiles(t, map_, start, end)[k].a + Tiles(t, map_, start, end)[k].len <= end
    {
      SecondLevelIsInside(t, map_, start, end, k);
    }
    hide Tiles, Chunk;
    assert SRAM_LO % 64 == 0 && (SRAM_LO < end ==> SRAM_LO < a + size);
  }

  // A range that wedges it: from the last page of external memory on for 64 MiB.
  lemma RangeWedges()
    ensures Wedges(Tiles(WriteBack, MapFor(0x4BFFF000), Down(0x4BFFF000), RoundedEnd(0x4BFFF000, 0x0400_0000)))
  {
    hide Tiles, Wedges;
    WedgesExactly(WriteBack, 0x4BFFF000, 0x0400_0000);
  }

  lemma ReachesInternal(t: Trigger, map_: Map, start: nat, end: nat)
    requires map_.Both? && start <= SRAM_LO < end
    ensures Wedges(Tiles(t, map_, start, end))
  {
    var i := SRAM_LO / 64;
    TilesCoverOnce(t, map_, start, end, i);
    var k := Covering(Tiles(t, map_, start, end), L2, i);
  }

  lemma SecondLevelIsInside(t: Trigger, map_: Map, start: nat, end: nat, k: nat)
    requires Aligned(start) && Aligned(end)
    requires k < |Tiles(t, map_, start, end)| && Tiles(t, map_, start, end)[k].level.L2?
    ensures map_.Both? && Tiles(t, map_, start, end)[k].a + Tiles(t, map_, start, end)[k].len <= end
  {
    var ops := Tiles(t, map_, start, end);
    TilesAreProper(t, map_, start, end);
    assert ops[k] in ops;
    TilesCoverOnce(t, map_, start, end, ops[k].a / 64);
    Counted(ops, L2, ops[k].a / 64, k);
  }

  lemma {:induction false} Covering(ops: seq<Op>, level: Level, i: nat) returns (k: nat)
    requires Count(ops, level, i) > 0
    ensures k < |ops| && ops[k].level == level && Covers(ops[k], i)
  {
    if ops[0].level == level && Covers(ops[0], i) {
      k := 0;
    } else {
      k := Covering(ops[1..], level, i);
      k := k + 1;
    }
  }

  lemma {:induction false} Counted(ops: seq<Op>, level: Level, i: nat, k: nat)
    requires k < |ops| && ops[k].level == level && Covers(ops[k], i)
    ensures Count(ops, level, i) > 0
  {
    if k > 0 {
      Counted(ops[1..], level, i, k - 1);
    }
  }

  // ------------------------------------------------------------- the machine

  // One command touches the lines it covers.
  function Touched(lines: seq<Line>, op: Op): seq<Line> {
    seq(|lines|, i requires 0 <= i < |lines| =>
      if Covers(op, i) then Touch(lines[i], op.level, op.trigger, ViaL2(i)) else lines[i])
  }

  // The lines after a list of commands.
  function After(lines: seq<Line>, ops: seq<Op>): seq<Line>
    decreases |ops|
  {
    if ops == [] then lines else After(Touched(lines, ops[0]), ops[1..])
  }

  // Every line from a to end is maintained on its levels, the others are not.
  predicate Sent(before: seq<Line>, after: seq<Line>, t: Trigger, a: nat, end: nat) {
    && |after| == |before|
    && forall i :: 0 <= i < |before| ==>
      after[i] == if a <= 64 * i < end then Maintained(before[i], t, ViaL2(i)) else before[i]
  }

  // All lines from a to end are served by the levels of the map.
  ghost predicate Uniform(map_: Map, a: nat, end: nat) {
    forall i: nat :: a <= 64 * i < end ==> (ViaL2(i) <==> map_.Both?)
  }

  lemma {:induction false} AfterOfTwo(lines: seq<Line>, a: seq<Op>, b: seq<Op>)
    ensures After(lines, a + b) == After(After(lines, a), b)
    decreases |a|
  {
    if a == [] {
      assert a + b == b;
    } else {
      assert (a + b)[1..] == a[1..] + b;
      AfterOfTwo(Touched(lines, a[0]), a[1..], b);
    }
  }

  lemma OneChunk(log: seq<Op>, lines: seq<Line>, t: Trigger, map_: Map, a: nat, n: nat, end: nat)
    requires a < end && n == if end - a > CHUNK then CHUNK else end - a
    ensures log + Tiles(t, map_, a, end) == (log + Chunk(t, map_, a, n)) + Tiles(t, map_, a + n, end)
    ensures After(lines, Tiles(t, map_, a, end)) == After(After(lines, Chunk(t, map_, a, n)), Tiles(t, map_, a + n, end))
  {
    var chunk, rest := Chunk(t, map_, a, n), Tiles(t, map_, a + n, end);
    assert Tiles(t, map_, a, end) == chunk + rest;
    hide After, Chunk, Tiles;
    AfterOfTwo(lines, chunk, rest);
    Regroup(log, chunk, rest);
  }

  lemma Regroup(a: seq<Op>, b: seq<Op>, c: seq<Op>)
    ensures a + (b + c) == (a + b) + c
  {
  }

  lemma AfterNone(lines: seq<Line>, t: Trigger, map_: Map, a: nat, end: nat)
    requires a >= end
    ensures Tiles(t, map_, a, end) == [] && After(lines, []) == lines
  {
  }

  lemma AfterChunk(lines: seq<Line>, t: Trigger, map_: Map, a: nat, n: nat)
    ensures var first := Touched(lines, Op(L1, t, a, n));
      After(lines, Chunk(t, map_, a, n)) == if map_.Both? then Touched(first, Op(L2, t, a, n)) else first
  {
    hide Touched;
    var ops := Chunk(t, map_, a, n);
    var first := Touched(lines, Op(L1, t, a, n));
    if map_.Both? {
      assert ops[1..] == [Op(L2, t, a, n)] && ops[1..][1..] == [];
      assert After(lines, ops) == After(first, ops[1..]) == After(Touched(first, ops[1]), []);
    } else {
      assert ops[1..] == [];
      assert After(lines, ops) == After(first, []);
    }
  }

  lemma ChunkIsSent(lines: seq<Line>, t: Trigger, map_: Map, a: nat, n: nat)
    requires Uniform(map_, a, a + n)
    ensures Sent(lines, After(lines, Chunk(t, map_, a, n)), t, a, a + n)
  {
    AfterChunk(lines, t, map_, a, n);
    hide After, Touch, ViaL2;
  }

  // The commands for a range in one window maintain its lines and no others.
  lemma {:induction false} TilesAreSent(lines: seq<Line>, t: Trigger, map_: Map, a: nat, end: nat)
    requires Uniform(map_, a, end)
    ensures Sent(lines, After(lines, Tiles(t, map_, a, end)), t, a, end)
    decreases end - a
  {
    if a < end {
      var n := if end - a > CHUNK then CHUNK else end - a;
      ChunkIsSent(lines, t, map_, a, n);
      var mid := After(lines, Chunk(t, map_, a, n));
      TilesAreSent(mid, t, map_, a + n, end);
      AfterOfTwo(lines, Chunk(t, map_, a, n), Tiles(t, map_, a + n, end));
      assert Tiles(t, map_, a, end) == Chunk(t, map_, a, n) + Tiles(t, map_, a + n, end);
      hide After, Tiles, Chunk, Maintained, ViaL2;
    }
  }

  lemma WindowIsUniform(a: nat, size: nat)
    requires InWindow(a, size) && size > 0
    ensures Uniform(MapFor(a), Down(a), RoundedEnd(a, size))
    ensures Down(a) <= a && a + size <= RoundedEnd(a, size) && !MapFor(a).Nowhere?
  {
  }

  // Writing a range of one window back leaves in memory what the processor
  // reads, on every requested byte, exactly if no line of it had a stale copy.
  lemma RangeAgreesExactly(lines: seq<Line>, a: nat, size: nat)
    requires |lines| == LINES && PlacedLines(lines) && InWindow(a, size) && size > 0
    ensures var after := After(lines, Tiles(WriteBack, MapFor(a), Down(a), RoundedEnd(a, size)));
      && |after| == LINES
      && (forall b :: a <= b < a + size ==> (Agrees(after[b / 64]) <==> Honest(lines[b / 64])))
      && (forall i :: 0 <= i < LINES ==> CpuView(after[i]) == CpuView(lines[i]))
  {
    WindowIsUniform(a, size);
    var start, end := Down(a), RoundedEnd(a, size);
    TilesAreSent(lines, WriteBack, MapFor(a), start, end);
    forall i | 0 <= i < LINES ensures CpuView(Maintained(lines[i], WriteBack, ViaL2(i))) == CpuView(lines[i])
    {
      WriteBackAgreesExactly(lines[i], ViaL2(i));
    }
    forall b | a <= b < a + size
      ensures Agrees(Maintained(lines[b / 64], WriteBack, ViaL2(b / 64))) <==> Honest(lines[b / 64])
      ensures start <= 64 * (b / 64) < end
    {
      WriteBackAgreesExactly(lines[b / 64], ViaL2(b / 64));
    }
  }

  // Invalidating it makes the processor read what the devices left in memory,
  // whatever the cached copies were, and memory stays as it was.
  lemma RangeReadsMemory(lines: seq<Line>, a: nat, size: nat)
    requires |lines| == LINES && PlacedLines(lines) && InWindow(a, size) && size > 0
    ensures var after := After(lines, Tiles(Invalidate, MapFor(a), Down(a), RoundedEnd(a, size)));
      && |after| == LINES
      && (forall b :: a <= b < a + size ==> CpuView(after[b / 64]) == lines[b / 64].mem)
      && (forall i :: 0 <= i < LINES ==> after[i].mem == lines[i].mem)
  {
    WindowIsUniform(a, size);
    var start, end := Down(a), RoundedEnd(a, size);
    TilesAreSent(lines, Invalidate, MapFor(a), start, end);
    forall i | 0 <= i < LINES ensures Maintained(lines[i], Invalidate, ViaL2(i)).mem == lines[i].mem {
      InvalidateAgrees(lines[i], ViaL2(i));
    }
    forall b | a <= b < a + size
      ensures CpuView(Maintained(lines[b / 64], Invalidate, ViaL2(b / 64))) == lines[b / 64].mem
      ensures start <= 64 * (b / 64) < end
    {
      InvalidateAgrees(lines[b / 64], ViaL2(b / 64));
    }
  }

  predicate PlacedLines(lines: seq<Line>) {
    |lines| == LINES && forall i :: 0 <= i < LINES ==> Placed(lines[i], ViaL2(i))
  }

  class Board {
    var lines: seq<Line>
    var syncMap: Level
    var syncAddr: nat
    var syncSize: nat
    ghost var log: seq<Op>

    // The write to the control register, after which the engine does its work.
    method Control(trigger: Trigger)
      modifies this`lines, this`log
      ensures log == old(log) + [Op(syncMap, trigger, syncAddr, syncSize)]
      ensures lines == Touched(old(lines), Op(syncMap, trigger, syncAddr, syncSize))
    {
      var op := Op(syncMap, trigger, syncAddr, syncSize);
      log := log + [op];
      lines := Touched(lines, op);
    }

    method SyncOp(map_: Level, trigger: Trigger, a: nat, len: nat)
      modifies this
      ensures log == old(log) + [Op(map_, trigger, a, len)]
      ensures lines == Touched(old(lines), Op(map_, trigger, a, len))
    {
      syncMap := map_;
      syncAddr := a;
      syncSize := len;
      Control(trigger);
    }

    // Both levels of one chunk, interrupts masked.
    method SyncChunk(trigger: Trigger, map_: Map, a: nat, n: nat)
      modifies this
      ensures log == old(log) + Chunk(trigger, map_, a, n)
      ensures lines == After(old(lines), Chunk(trigger, map_, a, n))
    {
      ghost var before := lines;
      SyncOp(L1, trigger, a, n);
      ghost var first := lines;
      if map_.Both? {
        SyncOp(L2, trigger, a, n);
        assert log == old(log) + Chunk(trigger, map_, a, n);
      }
      AfterChunk(before, trigger, map_, a, n);
    }

    // An empty, null or uncached range is ignored; any other one is sent to the
    // engine chunk by chunk.
    method SyncRange(trigger: Trigger, addr: nat, size: nat)
      modifies this
      ensures addr == 0 || size == 0 || !(External(addr) || Internal(addr)) ==> log == old(log) && lines == old(lines)
      ensures addr != 0 && size != 0 && (External(addr) || Internal(addr)) ==>
        var ops := Tiles(trigger, if External(addr) then Both else OnlyL1, Down(addr), RoundedEnd(addr, size));
        log == old(log) + ops && lines == After(old(lines), ops)
    {
      if addr == 0 || size == 0 {
        return;
      }
      var map_ := MapFor(addr);
      if map_.Nowhere? {
        return;
      }
      var end := RoundedEnd(addr, size);
      var a := Down(addr);
      ghost var ops := Tiles(trigger, map_, a, end);
      hide Down, RoundedEnd, Chunk, Touched, MapFor, After, Tiles;
      while a < end
        invariant log + Tiles(trigger, map_, a, end) == old(log) + ops
        invariant After(lines, Tiles(trigger, map_, a, end)) == After(old(lines), ops)
        decreases end - a
      {
        var n := end - a;
        if n > CHUNK {
          n := CHUNK;
        }
        OneChunk(log, lines, trigger, map_, a, n, end);
        SyncChunk(trigger, map_, a, n);
        a := a + n;
      }
      AfterNone(lines, trigger, map_, a, end);
    }
  }
}
