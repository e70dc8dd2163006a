// The Intel HEX printer of the flash script.
module HexWriter {
  import opened HexFormat

  function Digit(n: nat): (c: char)
    requires n < 16
    ensures Nibble(c) == Some(n) && c != '\n'
  {
    if n < 10 then '0' + n as char else 'A' + (n - 10) as char
  }

  function Hex2(n: byte): string { [Digit(n / 16), Digit(n % 16)] }

  function Hex4(n: nat): string
    requires n < 0x10000
  {
    [Digit(n / 4096), Digit((n / 256) % 16), Digit((n / 16) % 16), Digit(n % 16)]
  }

  function HexBytes(s: seq<byte>): string {
    if s == [] then "" else Hex2(s[0]) + HexBytes(s[1..])
  }

  function Checksum(parts: seq<byte>): (r: byte) {
    (-(Sum(parts) as int) - 1 + 1) % 256
  }

  function HighByte(addr: nat): byte { (addr / 256) % 256 }

  function LowByte(addr: nat): byte { addr % 256 }

  lemma AddressBytes(addr: nat)
    requires addr < 0x10000
    ensures Pair(HighByte(addr), LowByte(addr)) == addr
    ensures HighByte(addr) / 16 == addr / 4096 && HighByte(addr) % 16 == (addr / 256) % 16
    ensures LowByte(addr) / 16 == (addr / 16) % 16 && LowByte(addr) % 16 == addr % 16
  {
    assert HighByte(addr) == addr / 256;
  }

  function Head(addr: nat, kind: byte, rec: seq<byte>): seq<byte>
    requires |rec| < 256
  {
    [|rec|, HighByte(addr), LowByte(addr), kind]
  }

  // The text of one record.
  function Line(addr: nat, kind: byte, rec: seq<byte>): string
    requires addr < 0x10000 && |rec| < 256
  {
    var cs := Checksum(Head(addr, kind, rec) + rec);
    ":" + Hex2(|rec|) + Hex4(addr) + Hex2(kind) + HexBytes(rec) + Hex2(cs)
  }

  function Record4(upper: nat): string {
    Line(0, 4, [HighByte(upper), LowByte(upper)])
  }

  function Joined(lines: seq<string>): string {
    if lines == [] then "" else Joined(lines[..|lines| - 1]) + lines[|lines| - 1] + "\n"
  }

  // ----------------------------------------------------- a line is a record

  lemma HexOfAddress(addr: nat)
    requires addr < 0x10000
    ensures Hex4(addr) == HexBytes([HighByte(addr), LowByte(addr)])
  {
    AddressBytes(addr);
    var hi, lo := HighByte(addr), LowByte(addr);
    hide HighByte, LowByte;
    assert [hi, lo][1..] == [lo];
    OneByte(lo);
    assert HexBytes([hi, lo]) == Hex2(hi) + Hex2(lo);
  }

  lemma {:induction false} HexOfTwo(a: seq<byte>, b: seq<byte>)
    ensures HexBytes(a + b) == HexBytes(a) + HexBytes(b)
  {
    hide Hex2;
    if a == [] {
      assert a + b == b;
    } else {
      HexOfTwo(a[1..], b);
      assert (a + b)[1..] == a[1..] + b;
    }
  }

  lemma {:induction false} HexReadsBack(s: seq<byte>)
    ensures Bytes(HexBytes(s)) == Some(s)
    ensures '\n' !in HexBytes(s)
  {
    if s != [] {
      HexReadsBack(s[1..]);
      var t := HexBytes(s);
      assert t[2..] == HexBytes(s[1..]);
      assert s == [s[0]] + s[1..];
    }
  }

  lemma HexOfRecord(parts: seq<byte>, line: string)
    requires IsRecord(parts) && line == ":" + HexBytes(parts)
    ensures ReadRecord(line) == Some(Record(Pair(parts[1], parts[2]), parts[3], parts[4..|parts| - 1]))
    ensures '\n' !in line
  {
    HexReadsBack(parts);
    hide HexBytes, Bytes;
    assert line[1..] == HexBytes(parts);
  }

  // A printed line reads back as the record it was printed from.
  lemma LineReadsBack(addr: nat, kind: byte, rec: seq<byte>)
    requires addr < 0x10000 && |rec| < 256
    ensures ReadRecord(Line(addr, kind, rec)) == Some(Record(addr, kind, rec))
    ensures '\n' !in Line(addr, kind, rec)
  {
    var parts := Parts(addr, kind, rec);
    LineIsHex(addr, kind, rec);
    PartsAreRecord(addr, kind, rec);
    AddressBytes(addr);
    assert parts[4..|parts| - 1] == rec;
    hide HexBytes, Line, IsRecord, HighByte, LowByte, Pair, ReadRecord;
    HexOfRecord(parts, Line(addr, kind, rec));
  }

  function Parts(addr: nat, kind: byte, rec: seq<byte>): seq<byte>
    requires addr < 0x10000 && |rec| < 256
  {
    Head(addr, kind, rec) + rec + [Checksum(Head(addr, kind, rec) + rec)]
  }

  lemma PartsAreRecord(addr: nat, kind: byte, rec: seq<byte>)
    requires addr < 0x10000 && |rec| < 256
    ensures IsRecord(Parts(addr, kind, rec))
  {
    var front := Head(addr, kind, rec) + rec;
    SumOfTwo(front, [Checksum(front)]);
    assert Sum([Checksum(front)]) == Checksum(front);
  }

  lemma LineIsHex(addr: nat, kind: byte, rec: seq<byte>)
    requires addr < 0x10000 && |rec| < 256
    ensures Line(addr, kind, rec) == ":" + HexBytes(Parts(addr, kind, rec))
  {
    var head := Head(addr, kind, rec);
    var cs := Checksum(head + rec);
    HexOfTwo(head + rec, [cs]);
    HexOfTwo(head, rec);
    HeadIsHex(addr, kind, rec);
    OneByte(cs);
    hide HexBytes, Hex2, Hex4, Checksum, Head;
  }

  lemma HeadIsHex(addr: nat, kind: byte, rec: seq<byte>)
    requires addr < 0x10000 && |rec| < 256
    ensures HexBytes(Head(addr, kind, rec)) == Hex2(|rec|) + Hex4(addr) + Hex2(kind)
  {
    var n: seq<byte>, a: seq<byte>, k: seq<byte> := [|rec|], [HighByte(addr), LowByte(addr)], [kind];
    HexOfAddress(addr);
    OneByte(|rec|);
    OneByte(kind);
    HexOfTwo(n, a);
    HexOfTwo(n + a, k);
    hide HexBytes, Hex2, Hex4, HighByte, LowByte;
    assert n + a + k == Head(addr, kind, rec);
  }

  lemma OneByte(b: byte)
    ensures HexBytes([b]) == Hex2(b)
  {
    assert HexBytes([b]) == Hex2(b) + HexBytes([]);
  }

  // -------------------------------------------------------------- text again

  lemma {:induction false} LinesOfLine(line: string, rest: string)
    requires '\n' !in line
    ensures LineEnd(line + "\n" + rest) == |line|
  {
    var text := line + "\n" + rest;
    if line != "" {
      assert text[0] == line[0];
      assert text[1..] == line[1..] + "\n" + rest;
      LinesOfLine(line[1..], rest);
    }
  }

  lemma {:induction false} JoinedFront(lines: seq<string>)
    requires lines != []
    ensures Joined(lines) == lines[0] + "\n" + Joined(lines[1..])
  {
    var front := lines[..|lines| - 1];
    if |lines| > 1 {
      JoinedFront(front);
      assert front[1..] == lines[1..][..|lines| - 2];
    }
  }

  lemma {:induction false} LinesReadBack(lines: seq<string>)
    requires OneLineEach(lines)
    ensures Lines(Joined(lines)) == lines
  {
    if lines != [] {
      JoinedFront(lines);
      LinesOfLine(lines[0], Joined(lines[1..]));
      LinesReadBack(lines[1..]);
      var text := Joined(lines);
      assert text[..|lines[0]|] == lines[0];
      assert text[|lines[0]| + 1..] == Joined(lines[1..]);
    }
  }

  // ------------------------------------------------------------------ printer

  ghost predicate OneLineEach(lines: seq<string>) {
    forall k :: 0 <= k < |lines| ==> '\n' !in lines[k]
  }

  // The lines read so far load r and contain no newline.
  ghost predicate Loads(lines: seq<string>, lba: nat, writes: seq<Write>) {
    ReadLines(lines) == Some(Reading(lba, writes, false)) && OneLineEach(lines)
  }

  // The same address of the 32-bit space.
  predicate SameAddress(x: nat, y: nat) { x % SPACE == y % SPACE }

  lemma AddLine(lines: seq<string>, r: Reading, line: string, rec: Record)
    requires ReadLines(lines) == Some(r) && OneLineEach(lines)
    requires ReadRecord(line) == Some(rec) && '\n' !in line
    ensures ReadLines(lines + [line]) == Interpret(r, rec) && OneLineEach(lines + [line])
  {
    var all := lines + [line];
    assert all[..|all| - 1] == lines;
    hide Interpret, ReadRecord;
  }

  function Base(upper: nat): nat { 0x10000 * (upper % 0x10000) }

  function Upper(p: nat): nat { p / 0x10000 }

  function Lower(p: nat): (r: nat)
    ensures r < 0x10000
  {
    p % 0x10000
  }

  lemma LowerMoves(p: nat, n: nat)
    ensures Lower(Lower(p) + n) == Lower(p + n)
  {
  }

  lemma BaseReadsBack(upper: nat) returns (rec: Record)
    ensures ReadRecord(Record4(upper)) == Some(rec) && '\n' !in Record4(upper)
    ensures rec.kind == 4 && |rec.data| == 2 && 0x10000 * Pair(rec.data[0], rec.data[1]) == Base(upper)
  {
    var d: seq<byte> := [HighByte(upper), LowByte(upper)];
    assert Pair(d[0], d[1]) == upper % 0x10000;
    LineReadsBack(0, 4, d);
    rec := Record(0, 4, d);
  }

  // An extended linear address record sets the base and loads nothing.
  lemma AddBase(lines: seq<string>, lba: nat, writes: seq<Write>, upper: nat, line: string)
    requires Loads(lines, lba, writes) && line == Record4(upper)
    ensures Loads(lines + [line], Base(upper), writes)
  {
    var rec := BaseReadsBack(upper);
    hide Record4, ReadRecord, ReadLines, OneLineEach, Pair, Base;
    AddLine(lines, Reading(lba, writes, false), line, rec);
  }

  // A data record at the address of the next image byte loads its chunk there.
  lemma AddData(lines: seq<string>, lba: nat, base: nat, image: seq<byte>, rec: Record, line: string)
    requires Loads(lines, lba, Loaded(base, image)) && rec.kind == 0
    requires ReadRecord(line) == Some(rec) && '\n' !in line
    requires SameAddress(lba + rec.addr, base + |image|)
    ensures Loads(lines + [line], lba, Loaded(base, image + rec.data))
  {
    SameLoad(lba + rec.addr, base + |image|, rec.data);
    LoadedOfTwo(base, image, rec.data);
    hide ReadRecord, ReadLines, OneLineEach, Loaded, SameAddress;
    var r := Reading(lba, Loaded(base, image), false);
    AddLine(lines, r, line, rec);
    assert Interpret(r, rec) == Some(Reading(lba, Loaded(base, image + rec.data), false));
  }

  lemma SameLoad(x: nat, y: nat, chunk: seq<byte>)
    requires SameAddress(x, y)
    ensures Loaded(x, chunk) == Loaded(y, chunk)
  {
    forall i | 0 <= i < |chunk| ensures Loaded(x, chunk)[i] == Loaded(y, chunk)[i] {
      SameShift(x, y, i);
    }
  }

  lemma LoadedOfTwo(base: nat, a: seq<byte>, b: seq<byte>)
    ensures Loaded(base, a + b) == Loaded(base, a) + Loaded(base + |a|, b)
  {
    var both := Loaded(base, a) + Loaded(base + |a|, b);
    forall i | 0 <= i < |a + b| ensures Loaded(base, a + b)[i] == both[i] {
      assert base + |a| + (i - |a|) == base + i;
    }
  }

  lemma SameShift(x: nat, y: nat, i: nat)
    requires SameAddress(x, y)
    ensures (x + i) % SPACE == (y + i) % SPACE
  {
  }

  // The lines load the first pos bytes of the image and set the given base.
  ghost predicate Printed(lines: seq<string>, base: nat, image: seq<byte>, pos: nat, upper: nat) {
    pos <= |image| && Loads(lines, Base(upper), Loaded(base, image[..pos]))
  }

  lemma PrintBase(lines: seq<string>, base: nat, image: seq<byte>, pos: nat, before: nat, upper: nat)
    requires Printed(lines, base, image, pos, before)
    ensures Printed(lines + [Record4(upper)], base, image, pos, upper)
  {
    hide Loads, Base, Record4, Loaded;
    AddBase(lines, Base(before), Loaded(base, image[..pos]), upper, Record4(upper));
  }

  lemma PrintChunk(lines: seq<string>, base: nat, image: seq<byte>, pos: nat, upper: nat, addr: nat, n: nat)
    requires Printed(lines, base, image, pos, upper)
    requires pos + n <= |image| && n <= 16
    requires upper == Upper(base + pos) && addr == Lower(base + pos)
    ensures Printed(lines + [Line(addr, 0, image[pos..pos + n])], base, image, pos + n, upper)
  {
    hide Loads, Base, Loaded, Line;
    AddChunk(lines, upper, base, image[..pos], addr, image[pos..pos + n]);
    assert image[..pos] + image[pos..pos + n] == image[..pos + n];
  }

  lemma PrintEnd(lines: seq<string>, base: nat, image: seq<byte>, upper: nat)
    requires Printed(lines, base, image, |image|, upper)
    ensures Decode(Joined(lines + [":00000001FF"])) == Some(Loaded(base, image))
  {
    assert image[..|image|] == image;
    AddEnd(lines, Base(upper), Loaded(base, image));
  }

  // Whatever the base and the length, reading the file back loads exactly the
  // image, byte by byte at base, base + 1, ... of the 32-bit space.
  method WriteIhex(base: nat, image: seq<byte>) returns (text: string)
    ensures Decode(text) == Some(Loaded(base, image))
  {
    hide Printed, Line, Record4, Joined, Loaded, Decode, Upper, Lower;
    var upper := Upper(base) % 0x10000;
    var lines := [Record4(upper)];
    FirstBase(base, image, upper);
    var addr: nat, upperCur: nat, pos: nat := Lower(base), upper, 0;
    while pos < |image|
      invariant pos <= |image| && addr == Lower(base + pos)
      invariant Printed(lines, base, image, pos, upperCur)
    {
      if Upper(base + pos) != upperCur {
        PrintBase(lines, base, image, pos, upperCur, Upper(base + pos));
        upperCur := Upper(base + pos);
        lines := lines + [Record4(upperCur)];
        addr := Lower(base + pos);
      }
      var n := if pos + 16 <= |image| then 16 else |image| - pos;
      PrintChunk(lines, base, image, pos, upperCur, addr, n);
      LowerMoves(base + pos, n);
      lines := lines + [Line(addr, 0, image[pos..pos + n])];
      addr := Lower(addr + n);
      pos := pos + n;
    }
    PrintEnd(lines, base, image, upperCur);
    lines := lines + [":00000001FF"];
    text := Joined(lines);
  }

  lemma AddChunk(lines: seq<string>, upper: nat, base: nat, front: seq<byte>, addr: nat, chunk: seq<byte>)
    requires |chunk| <= 16 && upper == Upper(base + |front|) && addr == Lower(base + |front|)
    requires Loads(lines, Base(upper), Loaded(base, front))
    ensures Loads(lines + [Line(addr, 0, chunk)], Base(upper), Loaded(base, front + chunk))
  {
    hide Line, ReadRecord, Base, Loaded, SameAddress, Upper, Lower;
    LineReadsBack(addr, 0, chunk);
    Position(base + |front|);
    hide Loads;
    AddData(lines, Base(upper), base, front, Record(addr, 0, chunk), Line(addr, 0, chunk));
  }

  lemma FirstBase(base: nat, image: seq<byte>, upper: nat)
    ensures Printed([Record4(upper)], base, image, 0, upper)
  {
    assert Loads([], Base(0), []);
    assert Loaded(base, image[..0]) == [];
    PrintBase([], base, image, 0, 0, upper);
    assert [] + [Record4(upper)] == [Record4(upper)];
  }

  lemma Position(p: nat)
    ensures SameAddress(Base(Upper(p)) + Lower(p), p)
  {
    var q, r := p / 0x10000, p % 0x10000;
    var h := q / 0x10000;
    var low := 0x10000 * (q % 0x10000) + r;
    assert q == 0x10000 * h + q % 0x10000;
    assert p == 0x10000 * q + r;
    assert p == 0x1_0000_0000 * h + low;
    assert p % 0x1_0000_0000 == low % 0x1_0000_0000;
  }

  lemma AddEnd(lines: seq<string>, lba: nat, writes: seq<Write>)
    requires Loads(lines, lba, writes)
    ensures Decode(Joined(lines + [":00000001FF"])) == Some(writes)
  {
    LineReadsBack(0, 1, []);
    LastLine();
    hide Line, ReadRecord, ReadLines, OneLineEach, Lines, Joined;
    AddLine(lines, Reading(lba, writes, false), ":00000001FF", Record(0, 1, []));
    LinesReadBack(lines + [":00000001FF"]);
  }

  // The literal end record is the printer's own form of it.
  lemma LastLine()
    ensures Line(0, 1, []) == ":00000001FF"
  {
    var parts: seq<byte> := [0, 0, 0, 1] + [];
    assert parts == [0, 0, 0, 1];
    var z3: seq<byte>, z2: seq<byte>, z1: seq<byte> := [0, 0, 0], [0, 0], [0];
    assert parts[..3] == z3 && z3[..2] == z2 && z2[..1] == z1 && z1[..0] == [];
    assert Sum(z1) == 0 && Sum(z2) == 0 && Sum(z3) == 0 && Sum(parts) == 1;
    assert Checksum(parts) == 255;
    assert Line(0, 1, []) == ":" + Hex2(0) + Hex4(0) + Hex2(1) + HexBytes([]) + Hex2(255);
  }
}
