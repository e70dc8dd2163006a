// A reader of hexadecimal object files, after Intel's Hexadecimal Object File
// Format Specification, revision A: data, end-of-file and extended linear
// address records.
module HexFormat {

  type byte = x: int | 0 <= x < 256

  datatype Option<T> = None | Some(value: T)

  function Sum(s: seq<byte>): (r: nat) {
    if s == [] then 0 else Sum(s[..|s| - 1]) + s[|s| - 1]
  }

  // ------------------------------------------------------------------ digits

  function Nibble(c: char): Option<nat> {
    if '0' <= c <= '9' then Some((c - '0') as nat)
    else if 'A' <= c <= 'F' then Some((c - 'A') as nat + 10)
    else if 'a' <= c <= 'f' then Some((c - 'a') as nat + 10)
    else None
  }

  // Two digits a byte, most significant digit first.
  function Bytes(s: string): Option<seq<byte>> {
    if s == "" then Some([])
    else if |s| == 1 || Nibble(s[0]).None? || Nibble(s[1]).None? || Bytes(s[2..]).None? then None
    else
      Some([ByteOf(NibbleValue(s[0]), NibbleValue(s[1]))] + Bytes(s[2..]).value)
  }

  function ByteOf(hi: nat, lo: nat): (b: byte)
    requires hi < 16 && lo < 16
    ensures b / 16 == hi && b % 16 == lo
  {
    16 * hi + lo
  }

  // Two bytes, most significant first.
  function Pair(hi: nat, lo: nat): nat { 256 * hi + lo }

  function NibbleValue(c: char): (n: nat)
    requires Nibble(c).Some?
    ensures n < 16
  {
    Nibble(c).value
  }

  // ----------------------------------------------------------------- records

  // A record mark, and then the bytes of a record whose first byte counts its
  // data bytes and whose bytes sum to zero modulo 256.
  datatype Record = Record(addr: nat, kind: byte, data: seq<byte>)

  predicate IsRecord(parts: seq<byte>) {
    |parts| >= 5 && |parts| - 5 == parts[0] && Sum(parts) % 256 == 0
  }

  function ReadRecord(line: string): Option<Record> {
    if |line| == 0 || line[0] != ':' then None
    else match Bytes(line[1..])
      case None => None
      case Some(parts) =>
        if IsRecord(parts) then Some(Record(Pair(parts[1], parts[2]), parts[3], parts[4..|parts| - 1])) else None
  }

  datatype Write = Write(addr: nat, value: byte)

  // The linear base address, the bytes loaded so far, and whether the
  // end-of-file record has been read.
  datatype Reading = Reading(lba: nat, writes: seq<Write>, ended: bool)

  const SPACE: nat := 0x1_0000_0000

  function Loaded(start: nat, data: seq<byte>): seq<Write> {
    seq(|data|, i requires 0 <= i < |data| => Write((start + i) % SPACE, data[i]))
  }

  function Interpret(r: Reading, rec: Record): Option<Reading> {
    if r.ended then None
    else if rec.kind == 0 then Some(r.(writes := r.writes + Loaded(r.lba + rec.addr, rec.data)))
    else if rec.kind == 1 && rec.data == [] then Some(r.(ended := true))
    else if rec.kind == 4 && |rec.data| == 2 then Some(r.(lba := 0x10000 * Pair(rec.data[0], rec.data[1])))
    else None
  }

  function ReadLines(lines: seq<string>): Option<Reading> {
    if lines == [] then Some(Reading(0, [], false))
    else match ReadLines(lines[..|lines| - 1])
      case None => None
      case Some(r) =>
        match ReadRecord(lines[|lines| - 1])
        case None => None
        case Some(rec) => Interpret(r, rec)
  }

  // -------------------------------------------------------------------- text

  // The index of the first newline, or the length.
  function LineEnd(text: string): (n: nat)
    ensures n <= |text|
    ensures '\n' !in text[..n] && (n < |text| ==> text[n] == '\n')
  {
    if text == "" || text[0] == '\n' then 0 else LineEnd(text[1..]) + 1
  }

  function Lines(text: string): seq<string>
    decreases |text|
  {
    if text == "" then []
    else
      var n := LineEnd(text);
      [text[..n]] + if n < |text| then Lines(text[n + 1..]) else []
  }

  // The bytes a file loads, in order; a file must end with its end record.
  function Decode(text: string): Option<seq<Write>> {
    match ReadLines(Lines(text))
    case None => None
    case Some(r) => if r.ended then Some(r.writes) else None
  }

  // What memory holds at an address after the writes: the last one wins.
  function Value(writes: seq<Write>, addr: nat): Option<byte> {
    if writes == [] then None
    else if writes[|writes| - 1].addr == addr then Some(writes[|writes| - 1].value)
    else Value(writes[..|writes| - 1], addr)
  }

  lemma {:induction false} ValueOfDistinct(writes: seq<Write>, i: nat)
    requires i < |writes|
    requires forall j :: i < j < |writes| ==> writes[j].addr != writes[i].addr
    ensures Value(writes, writes[i].addr) == Some(writes[i].value)
  {
    if i < |writes| - 1 {
      ValueOfDistinct(writes[..|writes| - 1], i);
    }
  }

  // ------------------------------------------------------------- error checks

  lemma {:induction false} SumOfTwo(a: seq<byte>, b: seq<byte>)
    ensures Sum(a + b) == Sum(a) + Sum(b)
  {
    if b == [] {
      assert a + b == a;
    } else {
      SumOfTwo(a, b[..|b| - 1]);
      assert (a + b)[..|a + b| - 1] == a + b[..|b| - 1];
    }
  }

  // One wrong byte anywhere in a record is noticed.
  lemma OneWrongByteIsRefused(parts: seq<byte>, k: nat, v: byte)
    requires IsRecord(parts) && k < |parts| && v != parts[k]
    ensures !IsRecord(parts[k := v])
  {
    var front, back := parts[..k], parts[k + 1..];
    assert parts == front + [parts[k]] + back;
    assert parts[k := v] == front + [v] + back;
    SumOfTwo(front + [parts[k]], back);
    SumOfTwo(front, [parts[k]]);
    SumOfTwo(front + [v], back);
    SumOfTwo(front, [v]);
  }

  // Two neighbouring bytes swapped are not: the sum cannot tell them apart.
  lemma SwapIsAccepted(parts: seq<byte>, k: nat)
    requires IsRecord(parts) && 1 <= k < |parts| - 1
    ensures IsRecord(parts[k := parts[k + 1]][k + 1 := parts[k]])
  {
    var front, back := parts[..k], parts[k + 2..];
    var a, b := parts[k], parts[k + 1];
    assert parts == front + [a, b] + back;
    assert parts[k := b][k + 1 := a] == front + [b, a] + back;
    SumOfTwo(front + [a, b], back);
    SumOfTwo(front, [a, b]);
    SumOfTwo(front + [b, a], back);
    SumOfTwo(front, [b, a]);
    SumOfTwo([a], [b]);
    SumOfTwo([b], [a]);
    assert [a] + [b] == [a, b] && [b] + [a] == [b, a];
  }
}
