// Boot-header CRC of the TC27x: the bit-serial register loop, the bit reversal
// at its end, and what the pair computes.
module Crc {

  // A 32-bit value of the program, most significant bit first.
  type Word = w: seq<bool> | |w| == 32 witness seq(32, _ => false)

  function BitAt(x: int, k: nat): bool
    decreases k, x
  {
    if k == 0 then x % 2 == 1 else BitAt(x / 2, k - 1)
  }

  function Byte(x: int): (bits: seq<bool>)
    ensures |bits| == 8
  {
    [BitAt(x, 7), BitAt(x, 6), BitAt(x, 5), BitAt(x, 4),
     BitAt(x, 3), BitAt(x, 2), BitAt(x, 1), BitAt(x, 0)]
  }

  // The low bits of an integer; `/` and `%` round down, so a negative integer
  // has the bits of its two's complement, as `&` has them in Python.
  function U16(x: int): (bits: seq<bool>)
    ensures |bits| == 16
  {
    Byte(x / 0x100 % 0x100) + Byte(x % 0x100)
  }

  function U32(x: int): Word { U16(x / 0x10000 % 0x10000) + U16(x % 0x10000) }

  const POLY: Word := U32(0x04C11DB7)
  const POLY_REFLECTED: Word := U32(0xEDB88320)
  const ONES: Word := U32(0xFFFFFFFF)

  function Zeros(n: nat): (bits: seq<bool>)
    ensures |bits| == n && forall i :: 0 <= i < n ==> !bits[i]
  {
    seq(n, _ => false)
  }

  function Xor(a: seq<bool>, b: seq<bool>): (d: seq<bool>)
    requires |a| == |b|
    ensures |d| == |a| && forall i :: 0 <= i < |a| ==> d[i] == (a[i] != b[i])
  {
    seq(|a|, i requires 0 <= i < |a| => a[i] != b[i])
  }

  function Not(a: seq<bool>): (d: seq<bool>)
    ensures |d| == |a| && forall i :: 0 <= i < |a| ==> d[i] == !a[i]
  {
    seq(|a|, i requires 0 <= i < |a| => !a[i])
  }

  function Reverse(a: seq<bool>): (d: seq<bool>)
    ensures |d| == |a| && forall i :: 0 <= i < |a| ==> d[i] == a[|a| - 1 - i]
  {
    seq(|a|, i requires 0 <= i < |a| => a[|a| - 1 - i])
  }

  // ---------------------------------------------------------- specification

  function Gate(b: bool, poly: Word): Word { if b then poly else Zeros(32) }

  // One turn of the innermost loop: the register moves left and the generator
  // is subtracted when the bit that leaves differs from the bit that is fed.
  function Shift(c: Word, b: bool): Word {
    Xor(c[1..] + [false], Gate(c[0] != b, POLY))
  }

  function Feed(c: Word, bits: seq<bool>): Word
    decreases |bits|
  {
    if bits == [] then c else Feed(Shift(c, bits[0]), bits[1..])
  }

  // The four bytes of a word, the most significant one first.
  function WordBytes(w: Word): (bytes: seq<seq<bool>>)
    ensures |bytes| == 4 && forall k :: 0 <= k < 4 ==> |bytes[k]| == 8
  {
    [w[0..8], w[8..16], w[16..24], w[24..32]]
  }

  function ByteBits(bytes: seq<seq<bool>>): (bits: seq<bool>)
    ensures (forall k :: 0 <= k < |bytes| ==> |bytes[k]| == 8) ==> |bits| == 8 * |bytes|
  {
    if bytes == [] then [] else Reverse(bytes[0]) + ByteBits(bytes[1..])
  }

  // The order in which the loop takes the bits of a word: most significant byte
  // first, and each byte from its least significant bit.
  function WordBits(w: Word): (bits: seq<bool>)
    ensures |bits| == 32
  {
    ByteBits(WordBytes(w))
  }

  function MessageBits(words: seq<Word>): (bits: seq<bool>)
    ensures |bits| == 32 * |words|
  {
    if words == [] then [] else WordBits(words[0]) + MessageBits(words[1..])
  }

  // The header CRC of any list of words.
  function Head(words: seq<Word>): Word {
    Reverse(Not(Feed(ONES, MessageBits(words))))
  }

  // The six words the header CRC covers, masked as the source masks them.
  function HeaderWords(stad: int, bmi: int, bmhdid: int, chkStart: int, chkEnd: int,
                       crcRange: int, crcRangeInv: int): (words: seq<Word>)
    ensures |words| == 6
  {
    [U32(stad), U16(bmhdid) + U16(bmi),
     U32(chkStart), U32(chkEnd), U32(crcRange), U32(crcRangeInv)]
  }

  // ------------------------------------------------------------- the program

  method Crc32TricoreWord(crc0: Word, word: Word) returns (crc: Word)
    ensures crc == Feed(crc0, WordBits(word))
  {
    crc := crc0;
    var bytes := WordBytes(word);
    for k := 0 to 4
      invariant crc == Feed(crc0, ByteBits(bytes[..k]))
    {
      FeedBytesSnoc(crc0, bytes[..k], bytes[k]);
      assert bytes[..k] + [bytes[k]] == bytes[..k + 1];
      crc := ClockByte(crc, bytes[k]);
    }
    assert bytes[..4] == bytes;
  }

  method ClockByte(crc0: Word, byte: seq<bool>) returns (crc: Word)
    requires |byte| == 8
    ensures crc == Feed(crc0, Reverse(byte))
  {
    crc := crc0;
    ghost var fed := Reverse(byte);
    for bit := 0 to 8
      invariant crc == Feed(crc0, fed[..bit])
    {
      FeedSnoc(crc0, fed[..bit], fed[bit]);
      assert fed[..bit] + [fed[bit]] == fed[..bit + 1];
      crc := ClockBit(crc, byte[7 - bit]);
    }
    assert fed[..8] == fed;
  }

  // The body of the innermost loop.
  method ClockBit(crc0: Word, bitval: bool) returns (crc: Word)
    ensures crc == Shift(crc0, bitval)
  {
    var msb := crc0[0];
    crc := crc0[1..] + [false];
    if msb != bitval {
      crc := Xor(crc, POLY);
    }
  }

  method BmhdCrcHead(stad: int, bmi: int, bmhdid: int, chkStart: int, chkEnd: int,
                     crcRange: int, crcRangeInv: int) returns (head: Word, headInv: Word)
    ensures head == Head(HeaderWords(stad, bmi, bmhdid, chkStart, chkEnd, crcRange, crcRangeInv))
    ensures headInv == Not(head)
  {
    hide U16, U32, Byte, Reverse, Not, WordBits, Shift;
    var words := HeaderWords(stad, bmi, bmhdid, chkStart, chkEnd, crcRange, crcRangeInv);
    var crc := ONES;
    for i := 0 to |words|
      invariant crc == Feed(ONES, MessageBits(words[..i]))
    {
      crc := Crc32TricoreWord(crc, words[i]);
      FeedConcat(ONES, MessageBits(words[..i]), WordBits(words[i]));
      MessageSnoc(words[..i], words[i]);
      assert words[..i] + [words[i]] == words[..i + 1];
    }
    assert words[..|words|] == words;
    head := Reflect32(Not(crc));
    headInv := Not(head);
  }

  function And(a: Word, b: Word): Word {
    seq(32, i requires 0 <= i < 32 => a[i] && b[i])
  }

  function Or(a: Word, b: Word): Word {
    seq(32, i requires 0 <= i < 32 => a[i] || b[i])
  }

  function Shl(a: Word, n: nat): Word
    requires n <= 32
  {
    a[n..] + Zeros(n)
  }

  function Shr(a: Word, n: nat): Word
    requires n <= 32
  {
    Zeros(n) + a[..32 - n]
  }

  method Reflect32(x0: Word) returns (x: Word)
    ensures x == Reverse(x0)
  {
    Masks();
    x := SwapGroups(x0, 16, U32(0xFFFF0000), U32(0x0000FFFF));
    ghost var x16 := x;
    x := SwapGroups(x, 8, U32(0xFF00FF00), U32(0x00FF00FF));
    ghost var x8 := x;
    x := SwapGroups(x, 4, U32(0xF0F0F0F0), U32(0x0F0F0F0F));
    ghost var x4 := x;
    x := SwapGroups(x, 2, U32(0xCCCCCCCC), U32(0x33333333));
    ghost var x2 := x;
    x := SwapGroups(x, 1, U32(0xAAAAAAAA), U32(0x55555555));
    SwapsReverse(x0, x16, x8, x4, x2, x);
  }

  // One line of the reversal: the groups the two masks select change places.
  method SwapGroups(x: Word, s: nat, high: Word, low: Word) returns (y: Word)
    requires s in {1, 2, 4, 8, 16}
    requires Selects(high, s, 0) && Selects(low, s, 1)
    ensures Swapped(x, y, s)
  {
    y := Or(Shr(And(x, high), s), Shl(And(x, low), s));
    forall i | 0 <= i < 32 ensures y[i] == x[Flip(i, s)] {
      FlipParity(i, s);
    }
  }

  // The mask holds the groups of s bits whose number has the given parity.
  predicate Selects(mask: Word, s: nat, parity: nat)
    requires s > 0
  {
    forall i :: 0 <= i < 32 ==> mask[i] == (i / s % 2 == parity)
  }

  function Flip(i: nat, s: nat): (j: nat)
    requires s in {1, 2, 4, 8, 16} && i < 32
    ensures j < 32
  {
    FlipParity(i, s);
    if i / s % 2 == 0 then i + s else i - s
  }

  predicate Swapped(x: Word, y: Word, s: nat)
    requires s in {1, 2, 4, 8, 16}
  {
    forall i :: 0 <= i < 32 ==> y[i] == x[Flip(i, s)]
  }

  lemma FlipParity(i: nat, s: nat)
    requires s in {1, 2, 4, 8, 16} && i < 32
    ensures i / s % 2 == 0 ==> i + s < 32 && (i + s) / s % 2 == 1 && (i >= s ==> (i - s) / s % 2 == 1)
    ensures i / s % 2 == 1 ==> i >= s && (i - s) / s % 2 == 0 && (i + s < 32 ==> (i + s) / s % 2 == 0)
  {
    if s == 1 {
      FlipParity1(i);
    } else if s == 2 {
      FlipParity2(i);
    } else if s == 4 {
      FlipParity4(i);
    } else if s == 8 {
      FlipParity8(i);
    } else {
      FlipParity16(i);
    }
  }

  lemma FlipParity1(i: nat)
    requires i < 32
    ensures i / 1 % 2 == 0 ==> i + 1 < 32 && (i + 1) / 1 % 2 == 1 && (i >= 1 ==> (i - 1) / 1 % 2 == 1)
    ensures i / 1 % 2 == 1 ==> i >= 1 && (i - 1) / 1 % 2 == 0 && (i + 1 < 32 ==> (i + 1) / 1 % 2 == 0)
  {
    var g := i / 1;
    assert (i + 1) / 1 == g + 1 && (i >= 1 ==> (i - 1) / 1 == g - 1);
  }

  lemma FlipParity2(i: nat)
    requires i < 32
    ensures i / 2 % 2 == 0 ==> i + 2 < 32 && (i + 2) / 2 % 2 == 1 && (i >= 2 ==> (i - 2) / 2 % 2 == 1)
    ensures i / 2 % 2 == 1 ==> i >= 2 && (i - 2) / 2 % 2 == 0 && (i + 2 < 32 ==> (i + 2) / 2 % 2 == 0)
  {
    var g := i / 2;
    assert (i + 2) / 2 == g + 1 && (i >= 2 ==> (i - 2) / 2 == g - 1);
  }

  lemma FlipParity4(i: nat)
    requires i < 32
    ensures i / 4 % 2 == 0 ==> i + 4 < 32 && (i + 4) / 4 % 2 == 1 && (i >= 4 ==> (i - 4) / 4 % 2 == 1)
    ensures i / 4 % 2 == 1 ==> i >= 4 && (i - 4) / 4 % 2 == 0 && (i + 4 < 32 ==> (i + 4) / 4 % 2 == 0)
  {
    var g := i / 4;
    assert (i + 4) / 4 == g + 1 && (i >= 4 ==> (i - 4) / 4 == g - 1);
  }

  lemma FlipParity8(i: nat)
    requires i < 32
    ensures i / 8 % 2 == 0 ==> i + 8 < 32 && (i + 8) / 8 % 2 == 1 && (i >= 8 ==> (i - 8) / 8 % 2 == 1)
    ensures i / 8 % 2 == 1 ==> i >= 8 && (i - 8) / 8 % 2 == 0 && (i + 8 < 32 ==> (i + 8) / 8 % 2 == 0)
  {
    var g := i / 8;
    assert (i + 8) / 8 == g + 1 && (i >= 8 ==> (i - 8) / 8 == g - 1);
  }

  lemma FlipParity16(i: nat)
    requires i < 32
    ensures i / 16 % 2 == 0 ==> i + 16 < 32 && (i + 16) / 16 % 2 == 1 && (i >= 16 ==> (i - 16) / 16 % 2 == 1)
    ensures i / 16 % 2 == 1 ==> i >= 16 && (i - 16) / 16 % 2 == 0 && (i + 16 < 32 ==> (i + 16) / 16 % 2 == 0)
  {
    var g := i / 16;
    assert (i + 16) / 16 == g + 1 && (i >= 16 ==> (i - 16) / 16 == g - 1);
  }

  // Flipping ever larger groups mirrors a position in a block of n positions.
  function MirrorIn(i: nat, n: nat): int
    requires n > 0
  {
    i - 2 * (i % n) + n - 1
  }

  lemma FlipsMirror(i: nat)
    requires i < 32
    ensures Flip(Flip(Flip(Flip(Flip(i, 1), 2), 4), 8), 16) == 31 - i
  {
    hide Flip, MirrorIn;
    MirrorEnds(i);
    FlipOnce(i);
    FlipTwice(i);
    FlipThrice(i);
    FlipFour(i);
    FlipFive(i);
  }

  lemma MirrorEnds(i: nat)
    requires i < 32
    ensures MirrorIn(i, 1) == i && MirrorIn(i, 32) == 31 - i
  {
  }

  lemma FlipOnce(i: nat)
    requires i < 32
    ensures 0 <= MirrorIn(i, 1) < 32 && Flip(MirrorIn(i, 1), 1) == MirrorIn(i, 2)
  {
  }

  lemma FlipTwice(i: nat)
    requires i < 32
    ensures 0 <= MirrorIn(i, 2) < 32 && Flip(MirrorIn(i, 2), 2) == MirrorIn(i, 4)
  {
  }

  lemma FlipThrice(i: nat)
    requires i < 32
    ensures 0 <= MirrorIn(i, 4) < 32 && Flip(MirrorIn(i, 4), 4) == MirrorIn(i, 8)
  {
  }

  lemma FlipFour(i: nat)
    requires i < 32
    ensures 0 <= MirrorIn(i, 8) < 32 && Flip(MirrorIn(i, 8), 8) == MirrorIn(i, 16)
  {
  }

  lemma FlipFive(i: nat)
    requires i < 32
    ensures 0 <= MirrorIn(i, 16) < 32 && Flip(MirrorIn(i, 16), 16) == MirrorIn(i, 32)
  {
  }

  lemma SwapsReverse(x0: Word, x16: Word, x8: Word, x4: Word, x2: Word, x1: Word)
    requires Swapped(x0, x16, 16) && Swapped(x16, x8, 8) && Swapped(x8, x4, 4)
    requires Swapped(x4, x2, 2) && Swapped(x2, x1, 1)
    ensures x1 == Reverse(x0)
  {
    forall i | 0 <= i < 32 ensures x1[i] == x0[31 - i] {
      FlipsMirror(i);
      var j1 := Flip(i, 1);
      var j2 := Flip(j1, 2);
      var j4 := Flip(j2, 4);
      var j8 := Flip(j4, 8);
      assert x1[i] == x2[j1] == x4[j2] == x8[j4] == x16[j8] == x0[Flip(j8, 16)];
    }
  }

  lemma Masks()
    ensures Selects(U32(0xFFFF0000), 16, 0)
    ensures Selects(U32(0x0000FFFF), 16, 1)
    ensures Selects(U32(0xFF00FF00), 8, 0)
    ensures Selects(U32(0x00FF00FF), 8, 1)
    ensures Selects(U32(0xF0F0F0F0), 4, 0)
    ensures Selects(U32(0x0F0F0F0F), 4, 1)
    ensures Selects(U32(0xCCCCCCCC), 2, 0)
    ensures Selects(U32(0x33333333), 2, 1)
    ensures Selects(U32(0xAAAAAAAA), 1, 0)
    ensures Selects(U32(0x55555555), 1, 1)
  {
    MaskFFFF0000();
    Mask0000FFFF();
    MaskFF00FF00();
    Mask00FF00FF();
    MaskF0F0F0F0();
    Mask0F0F0F0F();
    MaskCCCCCCCC();
    Mask33333333();
    MaskAAAAAAAA();
    Mask55555555();
  }

  lemma FourBytes(a: nat, b: nat, c: nat, d: nat)
    requires a < 256 && b < 256 && c < 256 && d < 256
    ensures U32(0x1000000 * a + 0x10000 * b + 0x100 * c + d) == Byte(a) + Byte(b) + (Byte(c) + Byte(d))
  {
    hide Byte;
    HalfWords(0x100 * a + b, 0x100 * c + d);
    TwoBytes(a, b);
    TwoBytes(c, d);
  }

  lemma HalfWords(h: nat, l: nat)
    requires h < 0x10000 && l < 0x10000
    ensures U32(0x10000 * h + l) == U16(h) + U16(l)
  {
    hide Byte, U16;
  }

  lemma TwoBytes(a: nat, b: nat)
    requires a < 256 && b < 256
    ensures U16(0x100 * a + b) == Byte(a) + Byte(b)
  {
    hide Byte;
  }

  lemma Periodic(b: seq<bool>)
    requires |b| == 8
    ensures forall i :: 0 <= i < 32 ==> (b + b + (b + b))[i] == b[i % 8]
  {
  }

  lemma BlockInByte(i: nat, s: nat)
    requires s in {1, 2, 4}
    ensures i % 8 / s % 2 == i / s % 2
  {
    if s == 1 {
      assert i % 8 % 2 == i % 2;
    } else if s == 2 {
      BlockOfTwo(i);
    } else {
      BlockOfFour(i);
    }
  }

  lemma BlockOfTwo(i: nat)
    ensures i % 8 / 2 % 2 == i / 2 % 2
  {
    var q, r := i / 8, i % 8;
    assert i == 8 * q + r;
    assert i / 2 == 4 * q + r / 2;
  }

  lemma BlockOfFour(i: nat)
    ensures i % 8 / 4 % 2 == i / 4 % 2
  {
    var q, r := i / 8, i % 8;
    assert i == 8 * q + r;
    assert i / 4 == 2 * q + r / 4;
  }

  // A pattern of period 8 or less repeats in every byte.
  lemma RepeatByte(b: seq<bool>, s: nat, parity: nat)
    requires |b| == 8 && s in {1, 2, 4}
    requires forall i :: 0 <= i < 8 ==> b[i] == (i / s % 2 == parity)
    ensures Selects(b + b + (b + b), s, parity)
  {
    Periodic(b);
    forall i | 0 <= i < 32 ensures (b + b + (b + b))[i] == (i / s % 2 == parity) {
      BlockInByte(i, s);
      assert (b + b + (b + b))[i] == b[i % 8];
    }
  }

  lemma MaskFFFF0000()
    ensures Selects(U32(0xFFFF0000), 16, 0)
  {
    hide Byte, U16, U32;
    FourBytes(0xFF, 0xFF, 0x00, 0x00);
    Byte00();
    ByteFF();
  }

  lemma Mask0000FFFF()
    ensures Selects(U32(0x0000FFFF), 16, 1)
  {
    hide Byte, U16, U32;
    FourBytes(0x00, 0x00, 0xFF, 0xFF);
    Byte00();
    ByteFF();
  }

  lemma MaskFF00FF00()
    ensures Selects(U32(0xFF00FF00), 8, 0)
  {
    hide Byte, U16, U32;
    FourBytes(0xFF, 0x00, 0xFF, 0x00);
    Byte00();
    ByteFF();
  }

  lemma Mask00FF00FF()
    ensures Selects(U32(0x00FF00FF), 8, 1)
  {
    hide Byte, U16, U32;
    FourBytes(0x00, 0xFF, 0x00, 0xFF);
    Byte00();
    ByteFF();
  }

  lemma MaskF0F0F0F0()
    ensures Selects(U32(0xF0F0F0F0), 4, 0)
  {
    hide Byte, U16, U32;
    FourBytes(0xF0, 0xF0, 0xF0, 0xF0);
    ByteF0();
    RepeatByte(Byte(0xF0), 4, 0);
  }

  lemma Mask0F0F0F0F()
    ensures Selects(U32(0x0F0F0F0F), 4, 1)
  {
    hide Byte, U16, U32;
    FourBytes(0x0F, 0x0F, 0x0F, 0x0F);
    Byte0F();
    RepeatByte(Byte(0x0F), 4, 1);
  }

  lemma MaskCCCCCCCC()
    ensures Selects(U32(0xCCCCCCCC), 2, 0)
  {
    hide Byte, U16, U32;
    FourBytes(0xCC, 0xCC, 0xCC, 0xCC);
    ByteCC();
    RepeatByte(Byte(0xCC), 2, 0);
  }

  lemma Mask33333333()
    ensures Selects(U32(0x33333333), 2, 1)
  {
    hide Byte, U16, U32;
    FourBytes(0x33, 0x33, 0x33, 0x33);
    Byte33();
    RepeatByte(Byte(0x33), 2, 1);
  }

  lemma MaskAAAAAAAA()
    ensures Selects(U32(0xAAAAAAAA), 1, 0)
  {
    hide Byte, U16, U32;
    FourBytes(0xAA, 0xAA, 0xAA, 0xAA);
    ByteAA();
    RepeatByte(Byte(0xAA), 1, 0);
  }

  lemma Mask55555555()
    ensures Selects(U32(0x55555555), 1, 1)
  {
    hide Byte, U16, U32;
    FourBytes(0x55, 0x55, 0x55, 0x55);
    Byte55();
    RepeatByte(Byte(0x55), 1, 1);
  }

  lemma ByteF0()
    ensures forall i :: 0 <= i < 8 ==> Byte(0xF0)[i] == (i / 4 % 2 == 0)
  {
  }

  lemma Byte0F()
    ensures forall i :: 0 <= i < 8 ==> Byte(0x0F)[i] == (i / 4 % 2 == 1)
  {
  }

  lemma ByteCC()
    ensures forall i :: 0 <= i < 8 ==> Byte(0xCC)[i] == (i / 2 % 2 == 0)
  {
  }

  lemma Byte33()
    ensures forall i :: 0 <= i < 8 ==> Byte(0x33)[i] == (i / 2 % 2 == 1)
  {
  }

  lemma ByteAA()
    ensures forall i :: 0 <= i < 8 ==> Byte(0xAA)[i] == (i / 1 % 2 == 0)
  {
  }

  lemma Byte55()
    ensures forall i :: 0 <= i < 8 ==> Byte(0x55)[i] == (i / 1 % 2 == 1)
  {
  }

  lemma ByteFF()
    ensures forall i :: 0 <= i < 8 ==> Byte(0xFF)[i] == (true)
  {
  }

  lemma Byte00()
    ensures forall i :: 0 <= i < 8 ==> Byte(0x00)[i] == (false)
  {
  }

  // ------------------------------------------------------------ basic lemmas

  lemma {:induction false} FeedConcat(c: Word, a: seq<bool>, b: seq<bool>)
    ensures Feed(c, a + b) == Feed(Feed(c, a), b)
    decreases |a|
  {
    if a == [] {
      assert a + b == b;
    } else {
      assert (a + b)[1..] == a[1..] + b;
      FeedConcat(Shift(c, a[0]), a[1..], b);
    }
  }

  lemma FeedSnoc(c: Word, a: seq<bool>, b: bool)
    ensures Feed(c, a + [b]) == Shift(Feed(c, a), b)
  {
    FeedConcat(c, a, [b]);
  }

  lemma {:induction false} MessageSnoc(ws: seq<Word>, w: Word)
    ensures MessageBits(ws + [w]) == MessageBits(ws) + WordBits(w)
  {
    if ws == [] {
      assert (ws + [w])[1..] == [];
    } else {
      assert (ws + [w])[1..] == ws[1..] + [w];
      MessageSnoc(ws[1..], w);
    }
  }

  lemma {:induction false} BytesSnoc(bs: seq<seq<bool>>, b: seq<bool>)
    ensures ByteBits(bs + [b]) == ByteBits(bs) + Reverse(b)
  {
    if bs == [] {
      assert (bs + [b])[1..] == [];
    } else {
      assert (bs + [b])[1..] == bs[1..] + [b];
      BytesSnoc(bs[1..], b);
    }
  }

  lemma FeedBytesSnoc(c: Word, bs: seq<seq<bool>>, b: seq<bool>)
    ensures Feed(c, ByteBits(bs + [b])) == Feed(Feed(c, ByteBits(bs)), Reverse(b))
  {
    BytesSnoc(bs, b);
    FeedConcat(c, ByteBits(bs), Reverse(b));
  }
}
