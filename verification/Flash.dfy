// The AURIX flash driver: sectors are erased in groups, and a buffer is loaded
// page by page or burst by burst into the assembly buffer and programmed.
//
// Every access over the bus may fail, as the bus decides; what it carries is then
// not taken.
module Flash {

  type byte = x: int | 0 <= x < 256

  const SECTOR: nat := 0x4000
  const PAGE: nat := 32
  const BURST: nat := 256
  const ERASED: byte := 0        // what an erased byte reads is of no concern here

  datatype Status = OK | BREAKS_ALIGNMENT | OPERATION_FAILED

  // What the controller was told to do.
  datatype Command = Erase(sector: nat, count: nat) | Program(offset: nat, len: nat)

  // Byte i of the buffer, padded.
  function Byte(buffer: seq<byte>, i: nat): byte {
    if i < |buffer| then buffer[i] else 0xFF
  }

  function RoundUp(n: nat): nat { (n + 31) / 32 * 32 }

  // --------------------------------------------------------------- the plan

  // The erase commands for sectors first to last.
  function ErasePlan(align: nat, first: nat, last: nat): seq<Command>
    requires align > 0
    decreases last - first + 1
  {
    if first > last then []
    else
      var n := Group(align, first, last);
      [Erase(first, n)] + ErasePlan(align, first + n, last)
  }

  function Group(align: nat, first: nat, last: nat): (n: nat)
    requires align > 0 && first <= last
    ensures 0 < n <= last - first + 1
  {
    var room := align - first % align;
    if last - first + 1 <= room then last - first + 1 else room
  }

  predicate Erases(c: Command, sector: nat) { c.Erase? && c.sector <= sector < c.sector + c.count }

  // How many of the commands erase a sector.
  function EraseCount(cmds: seq<Command>, sector: nat): nat {
    if cmds == [] then 0 else (if Erases(cmds[0], sector) then 1 else 0) + EraseCount(cmds[1..], sector)
  }

  // One physical sector holds them all.
  predicate InOnePhysical(align: nat, c: Command)
    requires align > 0
  {
    c.Erase? && c.count > 0 && c.sector / align == (c.sector + c.count - 1) / align
  }

  // Every sector from first to last is erased by exactly one command, no other
  // sector by any, and no command crosses a physical sector.
  lemma {:induction false} ErasePlanPartitions(align: nat, first: nat, last: nat, sector: nat)
    requires align == 16 || align == 64
    ensures EraseCount(ErasePlan(align, first, last), sector) == if first <= sector <= last then 1 else 0
    ensures forall c :: c in ErasePlan(align, first, last) ==> InOnePhysical(align, c)
    decreases last - first + 1
  {
    if first <= last {
      var n := Group(align, first, last);
      ErasePlanPartitions(align, first + n, last, sector);
      var c, rest := Erase(first, n), ErasePlan(align, first + n, last);
      assert ([c] + rest)[1..] == rest;
      GroupIsPhysical(align, first, last);
    }
  }

  lemma GroupIsPhysical(align: nat, first: nat, last: nat)
    requires (align == 16 || align == 64) && first <= last
    ensures InOnePhysical(align, Erase(first, Group(align, first, last)))
  {
  }

  // The program commands for n bytes from an offset on.
  function ProgramPlan(offset: nat, n: nat): seq<Command>
    decreases n
  {
    if n == 0 then []
    else
      var m := ChunkLen(offset, n);
      [Program(offset, m)] + ProgramPlan(offset + m, Left(n, m))
  }

  // A burst where one fits, else a page.
  function ChunkLen(offset: nat, remain: nat): (m: nat)
    ensures m == PAGE || (m == BURST && remain >= BURST && offset % BURST == 0)
  {
    if remain >= BURST && offset % BURST == 0 then BURST else PAGE
  }

  // What is left of n bytes after the first m.
  function Left(n: nat, m: nat): nat { if m < n then n - m else 0 }

  predicate Programs(c: Command, page: nat) {
    c.Program? && c.offset <= 32 * page < c.offset + c.len
  }

  function ProgramCount(cmds: seq<Command>, page: nat): nat {
    if cmds == [] then 0 else (if Programs(cmds[0], page) then 1 else 0) + ProgramCount(cmds[1..], page)
  }

  predicate Placed(c: Command) {
    c.Program? && ((c.len == PAGE && c.offset % PAGE == 0) || (c.len == BURST && c.offset % BURST == 0))
  }

  // Every page of the rounded range is programmed by exactly one command, no
  // other page by any, and every command starts at a multiple of its length.
  lemma {:induction false} ProgramPlanPartitions(offset: nat, n: nat, page: nat)
    requires offset % 32 == 0
    ensures ProgramCount(ProgramPlan(offset, n), page) == if offset <= 32 * page < offset + RoundUp(n) then 1 else 0
    ensures forall c :: c in ProgramPlan(offset, n) ==> Placed(c)
    decreases n
  {
    if n > 0 {
      var m := ChunkLen(offset, n);
      PlanStep(offset, n);
      hide ProgramPlan, ProgramCount, RoundUp, Placed, ChunkLen, Left;
      ProgramPlanPartitions(offset + m, Left(n, m), page);
      FirstCommand(Program(offset, m), ProgramPlan(offset + m, Left(n, m)), page);
    } else {
      assert ProgramPlan(offset, n) == [];
    }
  }

  // Every whole block of 256 bytes at a multiple of 256 goes out as one burst.
  lemma {:induction false} BurstsWhereTheyFit(offset: nat, n: nat, block: nat)
    requires offset % 32 == 0 && block % BURST == 0 && offset <= block && block + BURST <= offset + n
    ensures Program(block, BURST) in ProgramPlan(offset, n)
    decreases n
  {
    var m := ChunkLen(offset, n);
    PlanStep(offset, n);
    if block != offset {
      BlockIsBehind(offset, n, block);
      BurstsWhereTheyFit(offset + m, n - m, block);
    }
  }

  lemma BlockIsBehind(offset: nat, n: nat, block: nat)
    requires offset % 32 == 0 && block % 256 == 0 && offset < block && block + BURST <= offset + n
    ensures offset + ChunkLen(offset, n) <= block
  {
    if offset % 256 == 0 {
      BurstBehind(offset, block);
    } else {
      BurstIsPages(block);
      PageBehind(offset, block);
    }
  }

  lemma BurstBehind(a: nat, b: nat)
    requires a % 256 == 0 && b % 256 == 0 && a < b
    ensures a + 256 <= b
  {
  }

  lemma PageBehind(a: nat, b: nat)
    requires a % 32 == 0 && b % 32 == 0 && a < b
    ensures a + 32 <= b
  {
  }

  lemma BurstIsPages(a: nat)
    requires a % 256 == 0
    ensures a % 32 == 0
  {
    assert a == 32 * (8 * (a / 256));
  }

  lemma PlanStep(offset: nat, n: nat)
    requires n > 0 && offset % 32 == 0
    ensures var m := ChunkLen(offset, n);
      && (offset + m) % 32 == 0 && Placed(Program(offset, m)) && RoundUp(n) == m + RoundUp(Left(n, m))
      && ProgramPlan(offset, n) == [Program(offset, m)] + ProgramPlan(offset + m, Left(n, m))
  {
    ChunkIsPlaced(offset, n);
    RoundUpStep(n, ChunkLen(offset, n));
    hide RoundUp, Placed, ChunkLen;
  }

  lemma ChunkIsPlaced(offset: nat, n: nat)
    requires offset % 32 == 0
    ensures (offset + ChunkLen(offset, n)) % 32 == 0 && Placed(Program(offset, ChunkLen(offset, n)))
  {
  }

  lemma RoundUpStep(n: nat, m: nat)
    requires n > 0 && (m == PAGE || (m == BURST && n >= BURST))
    ensures RoundUp(n) == m + RoundUp(Left(n, m))
  {
  }

  lemma FirstCommand(c: Command, rest: seq<Command>, page: nat)
    ensures ProgramCount([c] + rest, page) == (if Programs(c, page) then 1 else 0) + ProgramCount(rest, page)
  {
    assert ([c] + rest)[1..] == rest;
  }

  // --------------------------------------------------------------- the device

  // The bytes of m programmed ones from an offset on, the others as before.
  predicate Written(before: seq<byte>, after: seq<byte>, offset: nat, m: nat, buffer: seq<byte>) {
    && |after| == |before|
    && forall i :: 0 <= i < |before| ==>
      after[i] == NewByte(before, offset, m, buffer, i)
  }

  function NewByte(before: seq<byte>, offset: nat, m: nat, buffer: seq<byte>, i: nat): byte
    requires i < |before|
  {
    if offset <= i < offset + m then Byte(buffer, i - offset) else before[i]
  }

  // The pages of m programmed bytes are marked, the others are as before.
  predicate Marked(before: seq<bool>, after: seq<bool>, offset: nat, m: nat) {
    && |after| == |before|
    && forall p :: 0 <= p < |before| ==> after[p] == (before[p] || offset <= 32 * p < offset + m)
  }

  predicate Blank(marks: seq<bool>, offset: nat, m: nat) {
    forall p :: 0 <= p < |marks| && offset <= 32 * p < offset + m ==> !marks[p]
  }

  predicate SectorsBlank(before: seq<bool>, after: seq<bool>, sector: nat, n: nat) {
    && |after| == |before|
    && forall p :: 0 <= p < |before| ==>
      after[p] == (before[p] && !(SECTOR * sector <= 32 * p < SECTOR * (sector + n)))
  }

  predicate SectorsErased(before: seq<byte>, after: seq<byte>, sector: nat, n: nat) {
    && |after| == |before|
    && forall i :: 0 <= i < |before| ==>
      after[i] == if SECTOR * sector <= i < SECTOR * (sector + n) then ERASED else before[i]
  }

  // The flash with its command interface.  A write command is taken only in
  // page mode, with a full assembly buffer, on blank pages, at a multiple of
  // its length; an erase command only inside one physical sector.  Anything
  // else raises `fault` and changes nothing.
  class Controller {
    const tc2xx: bool
    const bankBase: nat
    var mem: seq<byte>
    var marks: seq<bool>          // pages programmed since their sector was erased
    var pageMode: bool
    var assembly: seq<byte>
    var address: nat
    var count: nat
    var prefix: nat
    var fault: bool
    ghost var log: seq<Command>

    constructor (tc2xx: bool, bankBase: nat, mem: seq<byte>, marks: seq<bool>)
      ensures this.tc2xx == tc2xx && this.mem == mem && this.marks == marks && log == [] && !fault
      ensures this.bankBase == bankBase
    {
      this.tc2xx := tc2xx;
      this.bankBase := bankBase;
      this.mem := mem;
      this.marks := marks;
      pageMode, assembly, address, count, prefix, fault, log := false, [], 0, 0, 0, false, [];
    }

    predicate Valid()
      reads this
    {
      |mem| == 32 * |marks| && |mem| % SECTOR == 0 && !fault
    }

    // Where the flash is, how many bytes a physical sector has, and the last word
    // of a burst command.
    function Base(): nat { if tc2xx then 0xA000_0000 else bankBase }

    function PhysicalBytes(): (r: nat)
      ensures r > 0
    {
      if tc2xx then 0x4_0000 else 0x10_0000
    }

    function BurstWord(): nat { if tc2xx then 0x7A else 0xA6 }

    // Whether a write command of this length would be taken.
    predicate Ready(len: nat)
      reads this
    {
      && pageMode && |assembly| == len > 0 && address >= Base() && address - Base() + len <= |mem|
      && (address - Base()) % len == 0 && Blank(marks, address - Base(), len)
    }

    method WriteCommand(len: nat)
      requires len == PAGE || len == BURST
      requires |mem| == 32 * |marks|
      modifies this
      ensures old(Ready(len)) ==> Took(len)
      ensures !old(Ready(len)) ==> fault && mem == old(mem) && marks == old(marks) && log == old(log)
      ensures !pageMode
    {
      if Ready(len) {
        var offset, before, was, data := address - Base(), mem, marks, assembly;
        mem := seq(|before|, i requires 0 <= i < |before| => NewByte(before, offset, len, data, i));
        marks := seq(|was|, p requires 0 <= p < |was| => was[p] || offset <= 32 * p < offset + len);
        log := log + [Program(offset, len)];
      } else {
        fault := true;
      }
      pageMode := false;
    }

    predicate Erasable()
      reads this
    {
      && address >= Base() && (address - Base()) % SECTOR == 0 && count > 0
      && (address - Base()) + SECTOR * count <= |mem|
      && (address - Base()) / PhysicalBytes() == (address - Base() + SECTOR * count - 1) / PhysicalBytes()
    }

    method EraseCommand()
      modifies this
      ensures pageMode == old(pageMode) && assembly == old(assembly)
      ensures old(Erasable()) ==> Wiped()
      ensures !old(Erasable()) ==> fault && mem == old(mem) && marks == old(marks) && log == old(log)
    {
      if Erasable() {
        var sector, n, before, was := (address - Base()) / SECTOR, count, mem, marks;
        mem := seq(|before|, i requires 0 <= i < |before| =>
          if SECTOR * sector <= i < SECTOR * (sector + n) then ERASED else before[i]);
        marks := seq(|was|, p requires 0 <= p < |was| =>
          was[p] && !(SECTOR * sector <= 32 * p < SECTOR * (sector + n)));
        log := log + [Erase(sector, n)];
      } else {
        fault := true;
      }
    }

    // The command register: the second word of a sequence starts the operation.
    method Command(word: nat)
      requires |mem| == 32 * |marks|
      modifies this
      ensures old(prefix) == 0 && (word == 0x80 || word == 0xA0) ==>
        prefix == word && Untouched()
        && pageMode == old(pageMode) && assembly == old(assembly) && address == old(address) && count == old(count)
      ensures old(prefix) == 0xA0 && word == 0xAA && old(Ready(PAGE)) ==> Took(PAGE)
      ensures old(prefix) == 0xA0 && word == BurstWord() && old(Ready(BURST)) ==> Took(BURST)
      ensures old(prefix) == 0x80 && word == 0x50 && old(Erasable()) ==> Wiped()
      ensures old(prefix) != 0 ==> prefix == 0
      ensures old(prefix) != 0 && !(old(prefix) == 0xA0 && (word == 0xAA || word == BurstWord()))
              && !(old(prefix) == 0x80 && word == 0x50) ==>
        fault && mem == old(mem) && marks == old(marks) && log == old(log)
    {
      if prefix == 0 && (word == 0x80 || word == 0xA0) {
        prefix := word;
      } else {
        var before := prefix;
        if before == 0xA0 && word == 0xAA {
          WriteCommand(PAGE);
        } else if before == 0xA0 && word == BurstWord() {
          WriteCommand(BURST);
        } else if before == 0x80 && word == 0x50 {
          EraseCommand();
        } else {
          fault := true;
        }
        prefix := 0;
      }
    }

    twostate predicate Untouched()
      reads this
    {
      mem == old(mem) && marks == old(marks) && log == old(log) && fault == old(fault)
    }

    // A write command of this length was carried out.
    twostate predicate Took(len: nat)
      requires old(address) >= Base()
      reads this
    {
      var offset := old(address) - Base();
      && Written(old(mem), mem, offset, len, old(assembly)) && Marked(old(marks), marks, offset, len)
      && log == old(log) + [Program(offset, len)] && fault == old(fault)
    }

    // An erase command was carried out.
    twostate predicate Wiped()
      requires old(address) >= Base()
      reads this
    {
      var sector := (old(address) - Base()) / SECTOR;
      && SectorsErased(old(mem), mem, sector, old(count)) && SectorsBlank(old(marks), marks, sector, old(count))
      && log == old(log) + [Erase(sector, old(count))] && fault == old(fault)
    }

    // 0xAF005554: 0x50 enters page mode with an empty assembly buffer, 0xF0
    // leaves it, 0xFA clears the status.
    method Mode(word: nat)
      modifies this
      ensures Untouched() && prefix == 0 && address == old(address) && count == old(count)
      ensures word == 0x50 ==> pageMode && assembly == []
      ensures word == 0xF0 ==> !pageMode
    {
      if word == 0x50 {
        pageMode, assembly := true, [];
      } else if word == 0xF0 {
        pageMode := false;
      }
      prefix := 0;
    }

    // 0xAF0055F0: eight more bytes.
    method Load(data: seq<byte>)
      modifies this`assembly
      ensures assembly == if pageMode then old(assembly) + data else old(assembly)
    {
      if pageMode {
        assembly := assembly + data;
      }
    }

    // 0xAF00AA50: the address, which begins a new command sequence.
    method SetAddress(a: nat)
      modifies this`address, this`prefix
      ensures address == a && prefix == 0
    {
      address, prefix := a, 0;
    }

    method SetCount(n: nat)
      modifies this`count
      ensures count == n
    {
      count := n;
    }
  }

  // ------------------------------------------------------------------- driver

  // The driver's own table of the two families.
  function FlashAddr(tc2xx: bool, bankBase: nat, offset: nat): nat {
    if tc2xx then 0xA000_0000 + offset else bankBase + offset
  }

  function PhysAlign(tc2xx: bool): (r: nat)
    ensures r == 16 || r == 64
  {
    if tc2xx then 16 else 64
  }

  function BurstCommand(tc2xx: bool): nat { if tc2xx then 0x7A else 0xA6 }

  // Sectors that share a physical sector of so many sectors share one of so many
  // bytes.
  lemma PhysicalInBytes(align: nat, first: nat, n: nat)
    requires (align == 16 || align == 64) && n > 0
    ensures InOnePhysical(align, Erase(first, n)) <==>
            SECTOR * first / (SECTOR * align) == (SECTOR * first + SECTOR * n - 1) / (SECTOR * align)
  {
    if align == 16 {
      assert SECTOR * first / 0x40000 == first / 16 && (SECTOR * (first + n - 1) + 0x3FFF) / 0x40000 == (first + n - 1) / 16;
    } else {
      assert SECTOR * first / 0x100000 == first / 64 && (SECTOR * (first + n - 1) + 0x3FFF) / 0x100000 == (first + n - 1) / 64;
    }
  }

  // The way to the controller.  Whether the n-th access, a write or a poll,
  // succeeds is a constant of the bus.
  class Bus {
    const outcome: nat -> bool
    var count: nat

    constructor (outcome: nat -> bool)
      ensures this.outcome == outcome && count == 0
    {
      this.outcome := outcome;
      count := 0;
    }

    method Access() returns (ok: bool)
      modifies this
      ensures ok == outcome(old(count)) && count == old(count) + 1
    {
      ok := outcome(count);
      count := count + 1;
    }
  }

  // No access from one count to the next failed.
  ghost predicate AllWell(bus: Bus, from: nat, to: nat) { forall n :: from <= n < to ==> bus.outcome(n) }

  // The bytes of one 64-bit store.
  function Padded(buffer: seq<byte>, i: nat, n: nat): (r: seq<byte>)
    ensures |r| == n && forall k :: 0 <= k < n ==> r[k] == Byte(buffer, i + k)
  {
    seq<byte>(n, k requires 0 <= k < n => Byte(buffer, i + k))
  }

  method LoadAssembly(bus: Bus, c: Controller, buffer: seq<byte>, capacity: nat) returns (ok: bool)
    requires c.pageMode && c.assembly == [] && capacity % 8 == 0
    modifies c`assembly, bus
    ensures bus.count >= old(bus.count) && (ok <==> AllWell(bus, old(bus.count), bus.count))
    ensures ok ==> c.assembly == Padded(buffer, 0, capacity)
  {
    var i := 0;
    while i < capacity
      invariant 0 <= i <= capacity && i % 8 == 0
      invariant c.assembly == Padded(buffer, 0, i)
      invariant bus.count >= old(bus.count) && AllWell(bus, old(bus.count), bus.count)
    {
      var data: seq<byte> := seq(8, _ => 0xFF);
      var chunk := if capacity - i < 8 then capacity - i else 8;
      if i < |buffer| {
        var copy := if |buffer| - i < chunk then |buffer| - i else chunk;
        data := buffer[i..i + copy] + seq(8 - copy, _ => 0xFF);
      }
      assert data == Padded(buffer, i, 8);
      ok := bus.Access();
      if !ok {
        return;
      }
      c.Load(data);
      i := i + 8;
    }
    ok := true;
  }

  // Page mode, the assembly buffer, the address, and the first word of the
  // command.
  method Stage(bus: Bus, c: Controller, buffer: seq<byte>, offset: nat, capacity: nat) returns (ok: bool)
    requires capacity % 8 == 0 && |c.mem| == 32 * |c.marks|
    modifies c, bus
    ensures bus.count >= old(bus.count) && (ok <==> AllWell(bus, old(bus.count), bus.count))
    ensures c.Untouched()
    ensures ok ==> c.pageMode && c.assembly == Padded(buffer, 0, capacity) && c.address == c.Base() + offset
    ensures ok ==> c.prefix == 0xA0
  {
    c.Mode(0x50);
    ok := bus.Access();
    if !ok { return; }
    ok := LoadAssembly(bus, c, buffer, capacity);
    if !ok { return; }
    ok := bus.Access();
    if !ok { return; }
    ok := Direct(bus, c, FlashAddr(c.tc2xx, c.bankBase, offset), 0, 0xA0);
  }

  // The address, the count, and the first word of a command sequence.
  method Direct(bus: Bus, c: Controller, address: nat, count: nat, word: nat) returns (ok: bool)
    requires (word == 0x80 || word == 0xA0) && |c.mem| == 32 * |c.marks|
    modifies c, bus
    ensures bus.count >= old(bus.count) && (ok <==> AllWell(bus, old(bus.count), bus.count))
    ensures c.Untouched() && c.pageMode == old(c.pageMode) && c.assembly == old(c.assembly)
    ensures ok ==> c.prefix == word && c.address == address && c.count == count
  {
    c.SetAddress(address);
    ok := bus.Access();
    if !ok { return; }
    c.SetCount(count);
    ok := bus.Access();
    if !ok { return; }
    c.Command(word);
  }

  // One chunk of a page or a burst.  On an error the command was carried out
  // or nothing was changed.
  method ProgramChunk(bus: Bus, c: Controller, buffer: seq<byte>, offset: nat, capacity: nat, word: nat)
    returns (s: Status, ghost m: nat)
    requires c.Valid() && 0 < |buffer| <= capacity && offset % capacity == 0 && offset + capacity <= |c.mem|
    requires (capacity == PAGE && word == 0xAA) || (capacity == BURST && word == c.BurstWord())
    requires Blank(c.marks, offset, capacity)
    modifies c, bus
    ensures bus.count >= old(bus.count) && (s.OK? <==> AllWell(bus, old(bus.count), bus.count))
    ensures c.Valid() && (m == 0 || m == capacity) && (s.OK? ==> m == capacity) && !s.BREAKS_ALIGNMENT?
    ensures m == 0 ==> c.Untouched()
    ensures m == capacity ==>
      && Written(old(c.mem), c.mem, offset, capacity, buffer) && Marked(old(c.marks), c.marks, offset, capacity)
      && c.log == old(c.log) + [Program(offset, capacity)]
  {
    m := 0;
    s := OPERATION_FAILED;
    var ok := bus.Access();
    if !ok { return; }
    ok := Stage(bus, c, buffer, offset, capacity);
    if !ok { return; }
    ok := bus.Access();
    if !ok { return; }
    assert c.Ready(capacity);
    c.Command(word);
    m := capacity;
    ok := bus.Access();
    s := if ok then OK else OPERATION_FAILED;
  }

  lemma WrittenGrows(before: seq<byte>, mid: seq<byte>, after: seq<byte>, offset: nat, done: nat, m: nat,
                     buffer: seq<byte>, chunk: seq<byte>)
    requires done < |buffer| && chunk == buffer[done..if done + m < |buffer| then done + m else |buffer|]
    requires Written(before, mid, offset, done, buffer) && Written(mid, after, offset + done, m, chunk)
    ensures Written(before, after, offset, done + m, buffer)
  {
    forall i | 0 <= i < |before| ensures after[i] == NewByte(before, offset, done + m, buffer, i) {
      assert mid[i] == NewByte(before, offset, done, buffer, i);
      assert after[i] == NewByte(mid, offset + done, m, chunk, i);
    }
  }

  lemma MarkedGrows(before: seq<bool>, mid: seq<bool>, after: seq<bool>, offset: nat, done: nat, m: nat, total: nat)
    requires Marked(before, mid, offset, done) && done + m <= total && Blank(before, offset, total)
    requires done % 32 == 0 && offset % 32 == 0
    ensures Blank(mid, offset + done, m)
    ensures Marked(mid, after, offset + done, m) ==> Marked(before, after, offset, done + m)
  {
  }

  // The first `done` bytes of the buffer are programmed.
  ghost predicate Part(mem: seq<byte>, mem': seq<byte>, marks: seq<bool>, marks': seq<bool>, offset: nat, done: nat,
                       buffer: seq<byte>) {
    && offset % 32 == 0 && done % 32 == 0 && done <= RoundUp(|buffer|)
    && offset + RoundUp(|buffer|) <= |mem| && Blank(marks, offset, RoundUp(|buffer|))
    && Written(mem, mem', offset, done, buffer) && Marked(marks, marks', offset, done)
  }

  function Chunk(buffer: seq<byte>, done: nat, n: nat): seq<byte>
    requires done < |buffer|
  {
    buffer[done..if done + n < |buffer| then done + n else |buffer|]
  }

  lemma PartAllows(mem: seq<byte>, mem': seq<byte>, marks: seq<bool>, marks': seq<bool>, offset: nat, done: nat,
                   buffer: seq<byte>, n: nat)
    requires Part(mem, mem', marks, marks', offset, done, buffer)
    requires done < |buffer| && n == ChunkLen(offset + done, |buffer| - done)
    ensures Blank(marks', offset + done, n) && offset + done + n <= |mem'| && (offset + done) % n == 0
    ensures |Chunk(buffer, done, n)| <= n && 0 < |Chunk(buffer, done, n)|
    ensures done + n <= RoundUp(|buffer|)
  {
    ChunkFits(offset, done, |buffer|);
    FitsRounded(|buffer|, done, n);
    hide RoundUp, ChunkLen, Written;
    MarkedGrows(marks, marks', marks', offset, done, n, RoundUp(|buffer|));
    hide Blank, Marked;
  }

  lemma ChunkFits(offset: nat, done: nat, count: nat)
    requires offset % 32 == 0 && done % 32 == 0 && done < count
    ensures (offset + done) % 32 == 0 && (offset + done) % ChunkLen(offset + done, count - done) == 0
  {
  }

  lemma FitsRounded(count: nat, done: nat, n: nat)
    requires done < count && done % 32 == 0 && (n == PAGE || (n == BURST && count - done >= BURST))
    ensures done + n <= RoundUp(count)
  {
  }

  lemma PartGrows(mem: seq<byte>, mem': seq<byte>, mem'': seq<byte>, marks: seq<bool>, marks': seq<bool>,
                  marks'': seq<bool>, offset: nat, done: nat, buffer: seq<byte>, n: nat)
    requires Part(mem, mem', marks, marks', offset, done, buffer)
    requires done < |buffer| && n == ChunkLen(offset + done, |buffer| - done)
    requires Written(mem', mem'', offset + done, n, Chunk(buffer, done, n)) && Marked(marks', marks'', offset + done, n)
    ensures Part(mem, mem'', marks, marks'', offset, done + n, buffer)
  {
    PartAllows(mem, mem', marks, marks', offset, done, buffer, n);
    WrittenGrows(mem, mem', mem'', offset, done, n, buffer, Chunk(buffer, done, n));
    MarkedGrows(marks, marks', marks'', offset, done, n, RoundUp(|buffer|));
    hide Blank, Marked, RoundUp, Written, Chunk;
  }

  // The next burst or page of the buffer.
  method NextChunk(bus: Bus, c: Controller, buffer: seq<byte>, offset: nat, done: nat, ghost mem: seq<byte>, ghost marks: seq<bool>)
    returns (s: Status, n: nat, ghost m: nat)
    requires c.Valid() && Part(mem, c.mem, marks, c.marks, offset, done, buffer) && done < |buffer|
    modifies c, bus
    ensures bus.count >= old(bus.count) && (s.OK? <==> AllWell(bus, old(bus.count), bus.count))
    ensures n == ChunkLen(offset + done, |buffer| - done)
    ensures (m == 0 || m == n) && (s.OK? ==> m == n) && !s.BREAKS_ALIGNMENT?
    ensures c.Valid() && Part(mem, c.mem, marks, c.marks, offset, done + m, buffer)
    ensures c.log == old(c.log) + if m == 0 then [] else [Program(offset + done, n)]
  {
    n := ChunkLen(offset + done, |buffer| - done);
    var word := if n == BURST then BurstCommand(c.tc2xx) else 0xAA;
    ghost var before, was := c.mem, c.marks;
    PartAllows(mem, before, marks, was, offset, done, buffer, n);
    hide RoundUp, Blank, Written, Marked, Chunk, Part;
    s, m := ProgramChunk(bus, c, Chunk(buffer, done, n), offset + done, n, word);
    if m == n {
      PartGrows(mem, before, c.mem, marks, was, c.marks, offset, done, buffer, n);
    }
  }

  // What is still to be sent completes the plan.
  ghost predicate OnPlan(sent: seq<Command>, log: seq<Command>, offset: nat, done: nat, count: nat) {
    && sent + ProgramPlan(offset + done, Left(count, done)) == log + ProgramPlan(offset, count)
    && done + RoundUp(Left(count, done)) == RoundUp(count) && (offset + done) % 32 == 0
  }

  lemma OnPlanGrows(sent: seq<Command>, log: seq<Command>, offset: nat, done: nat, count: nat, n: nat)
    requires OnPlan(sent, log, offset, done, count) && done < count && n == ChunkLen(offset + done, count - done)
    ensures OnPlan(sent + [Program(offset + done, n)], log, offset, done + n, count)
  {
    PlanStep(offset + done, count - done);
    hide ChunkLen, RoundUp, ProgramPlan;
    assert Left(count - done, n) == Left(count, done + n);
  }

  lemma PlanBegins(mem: seq<byte>, marks: seq<bool>, log: seq<Command>, offset: nat, buffer: seq<byte>)
    requires offset % 32 == 0 && |mem| == 32 * |marks|
    requires offset + RoundUp(|buffer|) <= |mem| && Blank(marks, offset, RoundUp(|buffer|))
    ensures Part(mem, mem, marks, marks, offset, 0, buffer) && OnPlan(log, log, offset, 0, |buffer|)
  {
  }

  lemma PlanIsDone(sent: seq<Command>, log: seq<Command>, offset: nat, done: nat, count: nat)
    requires OnPlan(sent, log, offset, done, count) && done >= count
    ensures done == RoundUp(count) && sent == log + ProgramPlan(offset, count)
  {
  }

  // The buffer, the last page filled up with 0xFF, is in the flash from the
  // offset on, and nothing else has changed.  On a bus error the flash holds a
  // first part of it in whole pages.
  method Write(bus: Bus, c: Controller, buffer: seq<byte>, offset: nat) returns (s: Status, ghost m: nat)
    requires offset % 32 == 0 ==>
      c.Valid() && offset + RoundUp(|buffer|) <= |c.mem| && Blank(c.marks, offset, RoundUp(|buffer|))
    modifies c, bus
    ensures bus.count >= old(bus.count) && (offset % 32 == 0 ==> (s.OK? <==> AllWell(bus, old(bus.count), bus.count)))
    ensures s.BREAKS_ALIGNMENT? <==> offset % 32 != 0
    ensures s.BREAKS_ALIGNMENT? ==> c.Untouched()
    ensures !s.BREAKS_ALIGNMENT? ==>
      c.Valid() && Part(old(c.mem), c.mem, old(c.marks), c.marks, offset, m, buffer)
    ensures s.OK? ==> m == RoundUp(|buffer|) && c.log == old(c.log) + ProgramPlan(offset, |buffer|)
    ensures s.OK? && c.tc2xx ==> !c.pageMode
  {
    m := 0;
    if offset % 32 != 0 {
      return BREAKS_ALIGNMENT, m;
    }
    s := OPERATION_FAILED;
    var ok: bool;
    if c.tc2xx {
      ok := bus.Access();
      if !ok { return; }
    }
    ghost var mem, marks, log := c.mem, c.marks, c.log;
    var pageOffset := 0;
    var count := |buffer|;
    PlanBegins(mem, marks, log, offset, buffer);
    hide Part, RoundUp, ProgramPlan, ChunkLen, OnPlan, Blank;
    while pageOffset < count
      invariant m == pageOffset && s == OPERATION_FAILED && c.Valid()
      invariant Part(mem, c.mem, marks, c.marks, offset, m, buffer)
      invariant OnPlan(c.log, log, offset, pageOffset, count)
      invariant bus.count >= old(bus.count) && AllWell(bus, old(bus.count), bus.count)
      decreases count - pageOffset
    {
      ghost var sent := c.log;
      var n;
      ghost var k;
      s, n, k := NextChunk(bus, c, buffer, offset, pageOffset, mem, marks);
      m := m + k;
      if !s.OK? { return; }
      OnPlanGrows(sent, log, offset, pageOffset, count, n);
      s := OPERATION_FAILED;
      pageOffset := pageOffset + n;
    }
    PlanIsDone(c.log, log, offset, pageOffset, count);
    if c.tc2xx {
      ok := ResetToRead(bus, c);
      if !ok { return; }
    }
    s := OK;
  }

  // Back to read mode, so that the flash can be fetched from.
  method ResetToRead(bus: Bus, c: Controller) returns (ok: bool)
    modifies c, bus
    ensures bus.count >= old(bus.count) && (ok <==> AllWell(bus, old(bus.count), bus.count))
    ensures c.Untouched() && (ok ==> !c.pageMode)
  {
    ok := bus.Access();
    if ok {
      c.Mode(0xF0);
    }
  }

  // ------------------------------------------------------------------ erasing

  lemma SectorsGrow(mem: seq<byte>, mid: seq<byte>, after: seq<byte>, first: nat, done: nat, n: nat)
    requires SectorsErased(mem, mid, first, done) && SectorsErased(mid, after, first + done, n)
    ensures SectorsErased(mem, after, first, done + n)
  {
  }

  lemma BlanksGrow(marks: seq<bool>, mid: seq<bool>, after: seq<bool>, first: nat, done: nat, n: nat)
    requires SectorsBlank(marks, mid, first, done) && SectorsBlank(mid, after, first + done, n)
    ensures SectorsBlank(marks, after, first, done + n)
  {
  }

  // The first n sectors from `first` on are erased.
  ghost predicate Cleared(mem: seq<byte>, mem': seq<byte>, marks: seq<bool>, marks': seq<bool>, first: nat, n: nat) {
    SectorsErased(mem, mem', first, n) && SectorsBlank(marks, marks', first, n)
  }

  lemma ClearedGrows(mem: seq<byte>, mem': seq<byte>, mem'': seq<byte>, marks: seq<bool>, marks': seq<bool>,
                     marks'': seq<bool>, first: nat, done: nat, n: nat)
    requires Cleared(mem, mem', marks, marks', first, done) && Cleared(mem', mem'', marks', marks'', first + done, n)
    ensures Cleared(mem, mem'', marks, marks'', first, done + n)
  {
    SectorsGrow(mem, mem', mem'', first, done, n);
    BlanksGrow(marks, marks', marks'', first, done, n);
  }

  lemma SectorAddress(k: nat)
    ensures (SECTOR * k) % SECTOR == 0 && (SECTOR * k) / SECTOR == k
  {
  }

  // The address, the number of sectors, and the first word of the command.
  method StageErase(bus: Bus, c: Controller, first: nat, n: nat) returns (ok: bool)
    requires |c.mem| == 32 * |c.marks|
    modifies c, bus
    ensures bus.count >= old(bus.count) && (ok <==> AllWell(bus, old(bus.count), bus.count))
    ensures c.Untouched()
    ensures ok ==> c.prefix == 0x80 && c.address == c.Base() + SECTOR * first && c.count == n
  {
    ok := bus.Access();
    if !ok { return; }
    if c.tc2xx {
      c.Mode(0xFA);
    }
    ok := bus.Access();
    if !ok { return; }
    ok := Direct(bus, c, FlashAddr(c.tc2xx, c.bankBase, SECTOR * first), n, 0x80);
  }

  method EraseGroup(bus: Bus, c: Controller, first: nat, n: nat) returns (s: Status, ghost taken: bool)
    requires c.Valid() && n > 0 && SECTOR * (first + n) <= |c.mem| && InOnePhysical(PhysAlign(c.tc2xx), Erase(first, n))
    modifies c, bus
    ensures bus.count >= old(bus.count) && (s.OK? <==> AllWell(bus, old(bus.count), bus.count))
    ensures !s.BREAKS_ALIGNMENT? && (s.OK? ==> taken) && |c.mem| == |old(c.mem)|
    ensures c.Valid() && Cleared(old(c.mem), c.mem, old(c.marks), c.marks, first, if taken then n else 0)
    ensures c.log == if taken then old(c.log) + [Erase(first, n)] else old(c.log)
  {
    s, taken := OPERATION_FAILED, false;
    var ok := StageErase(bus, c, first, n);
    if !ok { return; }
    ok := bus.Access();
    if !ok { return; }
    SectorAddress(first);
    PhysicalInBytes(PhysAlign(c.tc2xx), first, n);
    assert c.Erasable();
    c.Command(0x50);
    taken := true;
    ok := bus.Access();
    s := if ok then OK else OPERATION_FAILED;
  }

  ghost predicate OnErasePlan(sent: seq<Command>, log: seq<Command>, align: nat, first: nat, f: nat, last: nat)
    requires align > 0
  {
    sent + ErasePlan(align, f, last) == log + ErasePlan(align, first, last)
  }

  lemma OnErasePlanGrows(sent: seq<Command>, log: seq<Command>, align: nat, first: nat, f: nat, last: nat)
    requires (align == 16 || align == 64) && f <= last && OnErasePlan(sent, log, align, first, f, last)
    ensures var n := Group(align, f, last);
      OnErasePlan(sent + [Erase(f, n)], log, align, first, f + n, last) && InOnePhysical(align, Erase(f, n))
  {
    GroupIsPhysical(align, f, last);
  }

  lemma ErasePlanIsDone(sent: seq<Command>, log: seq<Command>, align: nat, first: nat, f: nat, last: nat)
    requires align > 0 && f > last && OnErasePlan(sent, log, align, first, f, last)
    ensures sent == log + ErasePlan(align, first, last)
  {
  }

  // Sectors first to last are erased and nothing else has changed; on a bus
  // error a first part of them is.
  method EraseSectors(bus: Bus, c: Controller, first: nat, last: nat) returns (s: Status, ghost n: nat)
    requires c.Valid() && (first <= last ==> SECTOR * (last + 1) <= |c.mem|)
    modifies c, bus
    ensures bus.count >= old(bus.count) && (s.OK? <==> AllWell(bus, old(bus.count), bus.count))
    ensures !s.BREAKS_ALIGNMENT? && n <= Left(last + 1, first)
    ensures c.Valid() && Cleared(old(c.mem), c.mem, old(c.marks), c.marks, first, n)
    ensures s.OK? ==> n == Left(last + 1, first) && c.log == old(c.log) + ErasePlan(if c.tc2xx then 16 else 64, first, last)
  {
    ghost var mem, marks, log := c.mem, c.marks, c.log;
    var align := PhysAlign(c.tc2xx);
    assert align == if c.tc2xx then 16 else 64;
    assert OnErasePlan(c.log, log, align, first, first, last);
    assert Cleared(mem, c.mem, marks, c.marks, first, 0);
    hide PhysAlign, Group, ErasePlan, InOnePhysical, Cleared, OnErasePlan;
    var f := first;
    n := 0;
    while f <= last
      invariant f == first + n && n <= Left(last + 1, first)
      invariant c.Valid() && |c.mem| == |mem| && Cleared(mem, c.mem, marks, c.marks, first, n)
      invariant OnErasePlan(c.log, log, align, first, f, last)
      invariant bus.count >= old(bus.count) && AllWell(bus, old(bus.count), bus.count)
      decreases last + 1 - f
    {
      ghost var mem', marks', log' := c.mem, c.marks, c.log;
      var sectorCount := Group(align, f, last);
      OnErasePlanGrows(log', log, align, first, f, last);
      ghost var taken;
      s, taken := EraseGroup(bus, c, f, sectorCount);
      ghost var m := if taken then sectorCount else 0;
      ClearedGrows(mem, mem', c.mem, marks, marks', c.marks, first, n, m);
      n := n + m;
      if !s.OK? { return; }
      f := f + sectorCount;
    }
    ErasePlanIsDone(c.log, log, align, first, f, last);
    s := OK;
  }

  // Erasing up to the last sector of an image and writing it from the start
  // leaves the image in the flash, whatever was there.
  method EraseAndWrite(bus: Bus, c: Controller, image: seq<byte>) returns (s: Status)
    requires c.Valid() && 0 < |image| <= |c.mem|
    modifies c, bus
    ensures bus.count >= old(bus.count) && (s.OK? <==> AllWell(bus, old(bus.count), bus.count))
    ensures c.Valid() && |c.mem| == |old(c.mem)|
    ensures s.OK? ==> c.mem[..|image|] == image
    ensures s.OK? ==> forall i :: SECTOR * ((|image| - 1) / SECTOR + 1) <= i < |c.mem| ==> c.mem[i] == old(c.mem)[i]
  {
    var lastSector := (|image| - 1) / SECTOR;
    ghost var mem0, marks0 := c.mem, c.marks;
    SectorsReach(|image|, |c.mem|);
    ghost var n;
    s, n := EraseSectors(bus, c, 0, lastSector);
    if !s.OK? { return; }
    ghost var mem1 := c.mem;
    ErasedIsBlank(marks0, c.marks, |image|);
    ghost var m;
    s, m := Write(bus, c, image, 0);
    hide RoundUp, Blank, Marked, SectorsErased, SectorsBlank;
    if s.OK? {
      ImageIsThere(mem0, mem1, c.mem, image, lastSector + 1);
    }
  }

  // The sectors of an image hold its rounded length and lie in the bank.
  lemma SectorsReach(count: nat, size: nat)
    requires 0 < count <= size && size % SECTOR == 0
    ensures count <= RoundUp(count) <= SECTOR * ((count - 1) / SECTOR + 1) <= size
  {
  }

  lemma ErasedIsBlank(marks: seq<bool>, marks': seq<bool>, count: nat)
    requires count > 0 && SectorsBlank(marks, marks', 0, (count - 1) / SECTOR + 1)
    ensures Blank(marks', 0, RoundUp(count))
  {
    assert RoundUp(count) <= SECTOR * ((count - 1) / SECTOR + 1);
    hide RoundUp;
  }

  lemma ImageIsThere(mem: seq<byte>, mem': seq<byte>, mem'': seq<byte>, image: seq<byte>, sectors: nat)
    requires SectorsErased(mem, mem', 0, sectors) && Written(mem', mem'', 0, RoundUp(|image|), image)
    requires |image| <= RoundUp(|image|) <= SECTOR * sectors && |image| <= |mem|
    ensures mem''[..|image|] == image
    ensures forall i :: SECTOR * sectors <= i < |mem| ==> mem''[i] == mem[i]
  {
    hide RoundUp;
    assert forall i :: 0 <= i < |mem| ==> mem''[i] == NewByte(mem', 0, RoundUp(|image|), image, i);
  }
}
