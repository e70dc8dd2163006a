// Which changes of a message the boot-header CRC always catches.
module CrcErrors {
  import opened Crc

  function FeedZeros(c: Word, n: nat): Word
    decreases n
  {
    if n == 0 then c else FeedZeros(Shift(c, false), n - 1)
  }

  lemma ShiftLinear(c: Word, d: Word, x: bool, y: bool)
    ensures Xor(Shift(c, x), Shift(d, y)) == Shift(Xor(c, d), x != y)
  {
  }

  lemma GeneratorConstant()
    ensures POLY[31]
  {
    FourBytes(0x04, 0xC1, 0x1D, 0xB7);
    assert Byte(0xB7)[7];
    hide Byte, U16, U32;
  }

  lemma ShiftInjective(c: Word)
    ensures Shift(c, false) == Zeros(32) <==> c == Zeros(32)
  {
    GeneratorConstant();
    hide U32;
    var d := Shift(c, false);
    assert d[31] == c[0];
    if d == Zeros(32) {
      assert forall i {:trigger c[i]} :: 1 <= i < 32 ==> c[i] == d[i - 1];
    }
  }

  // Superposition: the registers of two messages differ by the register of
  // their difference.
  lemma {:induction false} FeedLinear(c: Word, d: Word, a: seq<bool>, b: seq<bool>)
    requires |a| == |b|
    ensures Xor(Feed(c, a), Feed(d, b)) == Feed(Xor(c, d), Xor(a, b))
    decreases |a|
  {
    if a != [] {
      ShiftLinear(c, d, a[0], b[0]);
      assert Xor(a, b)[1..] == Xor(a[1..], b[1..]);
      FeedLinear(Shift(c, a[0]), Shift(d, b[0]), a[1..], b[1..]);
    }
  }

  lemma {:induction false} FeedZerosIsFeed(c: Word, n: nat)
    ensures Feed(c, Zeros(n)) == FeedZeros(c, n)
    decreases n
  {
    if n > 0 {
      assert Zeros(n)[1..] == Zeros(n - 1);
      FeedZerosIsFeed(Shift(c, false), n - 1);
    }
  }

  lemma {:induction false} FeedZerosInjective(c: Word, n: nat)
    ensures FeedZeros(c, n) == Zeros(32) <==> c == Zeros(32)
    decreases n
  {
    if n > 0 {
      ShiftInjective(c);
      FeedZerosInjective(Shift(c, false), n - 1);
    }
  }

  function Pad(bits: seq<bool>): Word
    requires |bits| <= 32
  {
    bits + Zeros(32 - |bits|)
  }

  // Up to 32 bits act as if they had been added to the register at once.
  lemma {:induction false} FeedAtOnce(c: Word, bits: seq<bool>)
    requires |bits| <= 32
    ensures Feed(c, bits) == FeedZeros(Xor(c, Pad(bits)), |bits|)
    decreases |bits|
  {
    if bits == [] {
      assert Xor(c, Pad(bits)) == c;
    } else {
      FeedAtOnce(Shift(c, bits[0]), bits[1..]);
      PadShift(c, bits);
    }
  }

  lemma PadShift(c: Word, bits: seq<bool>)
    requires 0 < |bits| <= 32
    ensures Shift(Xor(c, Pad(bits)), false) == Xor(Shift(c, bits[0]), Pad(bits[1..]))
  {
    assert Xor(c, Pad(bits))[0] == (c[0] != bits[0]);
    forall i | 0 <= i < 31 ensures Pad(bits)[i + 1] == Pad(bits[1..])[i] {
    }
  }

  // Differences that lie within 32 consecutive fed bits always reach the
  // register, whatever the register held and however long the message is.
  lemma BurstsAreCaught(c: Word, a: seq<bool>, b: seq<bool>, start: nat, k: nat)
    requires |a| == |b| && start <= k < |a| && k < start + 32
    requires forall i :: 0 <= i < |a| && !(start <= i < start + 32) ==> a[i] == b[i]
    requires a[k] != b[k]
    ensures Feed(c, a) != Feed(c, b)
  {
    hide Feed;
    var stop := if start + 32 <= |a| then start + 32 else |a|;
    var burst := Xor(a, b)[start..stop];
    assert Xor(a, b) == Zeros(start) + burst + Zeros(|a| - stop);
    DifferenceRegister(start, burst, |a| - stop, k - start);
    SameRegisters(c, a, b);
  }

  lemma SameRegisters(c: Word, a: seq<bool>, b: seq<bool>)
    requires |a| == |b|
    ensures Feed(c, a) == Feed(c, b) <==> Feed(Zeros(32), Xor(a, b)) == Zeros(32)
  {
    hide Feed;
    FeedLinear(c, c, a, b);
    XorZero(c, c);
    XorZero(Feed(c, a), Feed(c, b));
  }

  lemma DifferenceRegister(before: nat, burst: seq<bool>, after: nat, k: nat)
    requires k < |burst| <= 32 && burst[k]
    ensures Feed(Zeros(32), Zeros(before) + burst + Zeros(after)) != Zeros(32)
  {
    FeedConcat(Zeros(32), Zeros(before) + burst, Zeros(after));
    FeedConcat(Zeros(32), Zeros(before), burst);
    FeedZerosIsFeed(Zeros(32), before);
    FeedZerosInjective(Zeros(32), before);
    FeedAtOnce(Zeros(32), burst);
    assert Xor(Zeros(32), Pad(burst)) == Pad(burst);
    assert Pad(burst)[k];
    FeedZerosInjective(Pad(burst), |burst|);
    FeedZerosIsFeed(Feed(Zeros(32), burst), after);
    FeedZerosInjective(Feed(Zeros(32), burst), after);
  }

  // The bound is exact: one more bit and the generator itself slips through.
  lemma GeneratorIsMissed(c: Word, before: seq<bool>, after: seq<bool>)
    ensures Feed(c, before + ([true] + POLY) + after) == Feed(c, before + Zeros(33) + after)
  {
    GeneratorBurst(Feed(c, before));
    hide Feed, U32;
    FeedConcat(c, before + ([true] + POLY), after);
    FeedConcat(c, before, [true] + POLY);
    FeedConcat(c, before + Zeros(33), after);
    FeedConcat(c, before, Zeros(33));
  }

  lemma GeneratorBurst(r: Word)
    ensures Feed(r, [true] + POLY) == Feed(r, Zeros(33))
  {
    hide U32, Feed;
    var burst := [true] + POLY;
    assert Xor(burst, Zeros(33)) == burst;
    GeneratorCancels();
    SameRegisters(r, burst, Zeros(33));
  }

  lemma GeneratorCancels()
    ensures Feed(Zeros(32), [true] + POLY) == Zeros(32)
  {
    FirstOne();
    FeedFirst(Zeros(32), true, POLY);
    hide U32, Feed, Shift;
    FeedAtOnce(POLY, POLY);
    assert Pad(POLY) == POLY;
    XorZero(POLY, POLY);
    FeedZerosInjective(Zeros(32), 32);
  }

  lemma FeedFirst(c: Word, b: bool, bits: seq<bool>)
    ensures Feed(c, [b] + bits) == Feed(Shift(c, b), bits)
  {
    hide Shift;
    assert ([b] + bits)[1..] == bits;
  }

  lemma FirstOne()
    ensures Shift(Zeros(32), true) == POLY
  {
    hide U32;
    assert Zeros(32)[1..] + [false] == Zeros(32);
  }

  lemma XorZero(a: Word, b: Word)
    ensures Xor(a, b) == Zeros(32) <==> a == b
  {
    if Xor(a, b) == Zeros(32) {
      forall i | 0 <= i < 32 ensures a[i] == b[i] {
        assert !Xor(a, b)[i];
      }
    }
  }

  // Changing any one word of the message always changes the header CRC.
  lemma OneWordIsCaught(ws: seq<Word>, i: nat, w: Word)
    requires i < |ws| && ws[i] != w
    ensures Head(ws) != Head(ws[i := w])
  {
    hide WordBits, Shift, U32;
    var a, b := MessageBits(ws), MessageBits(ws[i := w]);
    WordAt(ws, i);
    WordAt(ws[i := w], i);
    assert ws[i := w][..i] == ws[..i] && ws[i := w][i + 1..] == ws[i + 1..];
    var k := WordBitsDiffer(ws[i], w);
    BurstsAreCaught(ONES, a, b, 32 * i, 32 * i + k);
    if Head(ws) == Head(ws[i := w]) {
      HeadInjective(Feed(ONES, a), Feed(ONES, b));
    }
  }

  lemma HeadInjective(c: Word, d: Word)
    requires Reverse(Not(c)) == Reverse(Not(d))
    ensures c == d
  {
    forall i | 0 <= i < 32 ensures c[i] == d[i] {
      assert Reverse(Not(c))[31 - i] == !c[i] && Reverse(Not(d))[31 - i] == !d[i];
    }
  }

  lemma {:induction false} WordAt(ws: seq<Word>, i: nat)
    requires i < |ws|
    ensures MessageBits(ws) == MessageBits(ws[..i]) + WordBits(ws[i]) + MessageBits(ws[i + 1..])
  {
    hide WordBits;
    if i > 0 {
      WordAt(ws[1..], i - 1);
      assert ws[..i][1..] == ws[1..][..i - 1];
      assert ws[1..][i..] == ws[i + 1..];
    } else {
      assert MessageBits(ws[..0]) == [];
    }
  }

  lemma WordBitsDiffer(u: Word, v: Word) returns (k: nat)
    requires u != v
    ensures k < 32 && WordBits(u)[k] != WordBits(v)[k]
  {
    var i :| 0 <= i < 32 && u[i] != v[i];
    k := 8 * (i / 8) + 7 - i % 8;
    WordBit(u, i);
    WordBit(v, i);
  }

  lemma WordBit(w: Word, i: nat)
    requires i < 32
    ensures WordBits(w)[8 * (i / 8) + 7 - i % 8] == w[i]
  {
    BytesOfWord(w);
    var q, r := i / 8, i % 8;
    assert i == 8 * q + r && q < 4;
    hide WordBits;
    if q == 0 {
    } else if q == 1 {
    } else if q == 2 {
    } else {
    }
  }

  lemma BytesOfWord(w: Word)
    ensures WordBits(w) == Reverse(w[0..8]) + (Reverse(w[8..16]) + (Reverse(w[16..24]) + (Reverse(w[24..32]) + [])))
  {
    var bytes := WordBytes(w);
    var b1, b2, b3 := bytes[1..], bytes[2..], bytes[3..];
    assert b1 == [w[8..16], w[16..24], w[24..32]] && b2 == [w[16..24], w[24..32]] && b3 == [w[24..32]];
    hide Reverse;
    assert ByteBits(bytes) == Reverse(w[0..8]) + ByteBits(b1);
    assert b1[1..] == b2 && ByteBits(b1) == Reverse(w[8..16]) + ByteBits(b2);
    assert b2[1..] == b3 && ByteBits(b2) == Reverse(w[16..24]) + ByteBits(b3);
    assert b3[1..] == [] && ByteBits(b3) == Reverse(w[24..32]) + ByteBits([]);
  }

  // ------------------------------------------------------- the header fields

  function Pow2(n: nat): nat { if n == 0 then 1 else 2 * Pow2(n - 1) }

  lemma {:induction false} BitsDetermine(x: nat, y: nat, n: nat)
    requires x < Pow2(n) && y < Pow2(n)
    requires forall k :: 0 <= k < n ==> BitAt(x, k) == BitAt(y, k)
    ensures x == y
  {
    if n > 0 {
      assert BitAt(x, 0) == BitAt(y, 0);
      forall k | 0 <= k < n - 1 ensures BitAt(x / 2, k) == BitAt(y / 2, k) {
        assert BitAt(x, k + 1) == BitAt(y, k + 1);
      }
      BitsDetermine(x / 2, y / 2, n - 1);
    }
  }

  lemma ByteDetermines(x: nat, y: nat)
    requires x < 256 && y < 256 && Byte(x) == Byte(y)
    ensures x == y
  {
    assert Pow2(8) == 256;
    forall k | 0 <= k < 8 ensures BitAt(x, k) == BitAt(y, k) {
      assert Byte(x)[7 - k] == BitAt(x, k) && Byte(y)[7 - k] == BitAt(y, k);
    }
    BitsDetermine(x, y, 8);
  }

  lemma U16Determines(x: int, y: int)
    requires U16(x) == U16(y)
    ensures x % 0x10000 == y % 0x10000
  {
    U16Halves(x);
    U16Halves(y);
    Quarters(x);
    Quarters(y);
    hide Byte, U16;
    ByteDetermines(x / 0x100 % 0x100, y / 0x100 % 0x100);
    ByteDetermines(x % 0x100, y % 0x100);
  }

  lemma U16Halves(x: int)
    ensures U16(x)[..8] == Byte(x / 0x100 % 0x100) && U16(x)[8..] == Byte(x % 0x100)
  {
    hide Byte;
  }

  lemma Quarters(x: int)
    ensures x % 0x10000 == 0x100 * (x / 0x100 % 0x100) + x % 0x100
  {
  }

  lemma Halves(x: int)
    ensures x % 0x1_0000_0000 == 0x10000 * (x / 0x10000 % 0x10000) + x % 0x10000
  {
  }

  lemma U32Determines(x: int, y: int)
    requires U32(x) == U32(y)
    ensures x % 0x1_0000_0000 == y % 0x1_0000_0000
  {
    hide U16;
    assert U32(x)[..16] == U32(y)[..16] && U32(x)[16..] == U32(y)[16..];
    U16Determines(x / 0x10000 % 0x10000, y / 0x10000 % 0x10000);
    U16Determines(x % 0x10000, y % 0x10000);
    Halves(x);
    Halves(y);
  }

  // Two headers that differ in the start address alone have different CRCs.
  lemma StartAddressIsCaught(stad: int, stad': int, bmi: int, bmhdid: int,
                             chkStart: int, chkEnd: int, range: int, rangeInv: int)
    requires stad % 0x1_0000_0000 != stad' % 0x1_0000_0000
    ensures Head(HeaderWords(stad, bmi, bmhdid, chkStart, chkEnd, range, rangeInv)) !=
            Head(HeaderWords(stad', bmi, bmhdid, chkStart, chkEnd, range, rangeInv))
  {
    hide U32, U16, Head;
    if U32(stad) == U32(stad') {
      U32Determines(stad, stad');
    }
    var ws := HeaderWords(stad, bmi, bmhdid, chkStart, chkEnd, range, rangeInv);
    OneWordIsCaught(ws, 0, U32(stad'));
    assert ws[0 := U32(stad')] == HeaderWords(stad', bmi, bmhdid, chkStart, chkEnd, range, rangeInv);
  }

  // So have two headers that differ in the boot-mode index, in the header
  // identifier, or in both.
  lemma BootModeIsCaught(stad: int, bmi: int, bmi': int, bmhdid: int, bmhdid': int,
                         chkStart: int, chkEnd: int, range: int, rangeInv: int)
    requires bmi % 0x10000 != bmi' % 0x10000 || bmhdid % 0x10000 != bmhdid' % 0x10000
    ensures Head(HeaderWords(stad, bmi, bmhdid, chkStart, chkEnd, range, rangeInv)) !=
            Head(HeaderWords(stad, bmi', bmhdid', chkStart, chkEnd, range, rangeInv))
  {
    hide U32, U16, Head;
    var u, v := U16(bmhdid) + U16(bmi), U16(bmhdid') + U16(bmi');
    if u == v {
      assert u[..16] == v[..16] && u[16..] == v[16..];
      U16Determines(bmi, bmi');
      U16Determines(bmhdid, bmhdid');
    }
    var ws := HeaderWords(stad, bmi, bmhdid, chkStart, chkEnd, range, rangeInv);
    OneWordIsCaught(ws, 1, v);
    assert ws[1 := v] == HeaderWords(stad, bmi', bmhdid', chkStart, chkEnd, range, rangeInv);
  }
}
