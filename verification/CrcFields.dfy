// Where each field of the boot header stands in the message of the header CRC,
// and that a change of any one of them changes it.
module CrcFields {
  import opened Crc
  import opened CrcErrors

  function Pow2(n: nat): (p: nat)
    ensures p > 0
  {
    if n == 0 then 1 else 2 * Pow2(n - 1)
  }

  // Bit t of an integer, of its two's complement when it is negative.
  predicate BitOf(x: int, t: nat) { x / Pow2(t) % 2 == 1 }

  // Bit t of word w of the message.
  predicate FieldBit(stad: int, bmi: int, bmhdid: int, chkStart: int, chkEnd: int, crcRange: int, crcRangeInv: int,
                     w: nat, t: nat)
  {
    match w
    case 0 => BitOf(stad, t)
    case 1 => if t < 16 then BitOf(bmi, t) else BitOf(bmhdid, t - 16)
    case 2 => BitOf(chkStart, t)
    case 3 => BitOf(chkEnd, t)
    case 4 => BitOf(crcRange, t)
    case _ => BitOf(crcRangeInv, t)
  }

  lemma HalfThenDivide(x: int, p: nat)
    requires p > 0
    ensures x / 2 / p == x / (2 * p)
  {
    var q, r := x / (2 * p), x % (2 * p);
    assert x == 2 * (p * q) + r;
    var h := r / 2;
    assert x / 2 == p * q + h && 0 <= h < p;
    Below(p, q, h);
  }

  lemma Below(p: nat, q: int, h: nat)
    requires h < p
    ensures (p * q + h) / p == q
  {
    var x := p * q + h;
    var d := x / p - q;
    assert x == p * (x / p) + x % p;
    assert p * d == p * (x / p) - p * q == h - x % p;
    NotBetween(p, d);
  }

  lemma NotBetween(p: nat, d: int)
    ensures d >= 1 ==> p * d >= p
    ensures d <= -1 ==> p * d + p <= 0
  {
  }

  lemma {:induction false} BitAtIs(x: int, t: nat)
    ensures BitAt(x, t) <==> BitOf(x, t)
    decreases t
  {
    if t > 0 {
      BitAtIs(x / 2, t - 1);
      HalfThenDivide(x, Pow2(t - 1));
    }
  }

  lemma ByteIs(x: int, t: nat)
    requires t < 8
    ensures Byte(x)[7 - t] == BitAt(x, t)
  {
  }

  // Taking the low bits leaves them as they are.
  lemma {:induction false} LowBits(x: int, m: nat, t: nat)
    requires t < m
    ensures BitAt(x % Pow2(m), t) == BitAt(x, t)
    decreases t
  {
    var p := Pow2(m - 1);
    HalfOfLow(x, p);
    if t > 0 {
      LowBits(x / 2, m - 1, t - 1);
    }
  }

  lemma HalfOfLow(x: int, p: nat)
    requires p > 0
    ensures x % (2 * p) % 2 == x % 2
    ensures x % (2 * p) / 2 == x / 2 % p
  {
    var q, r := x / (2 * p), x % (2 * p);
    assert x == 2 * (p * q) + r;
    assert x / 2 == p * q + r / 2 && 0 <= r / 2 < p;
    Below(p, q, r / 2);
    assert x / 2 == p * (x / 2 / p) + x / 2 % p;
  }

  lemma {:induction false} HighBits(x: int, m: nat, t: nat)
    ensures BitAt(x / Pow2(m), t) == BitAt(x, t + m)
    decreases m
  {
    if m > 0 {
      HalfThenDivide(x, Pow2(m - 1));
      HighBits(x / 2, m - 1, t);
    }
  }

  lemma Powers()
    ensures Pow2(8) == 0x100 && Pow2(16) == 0x10000
  {
    assert Pow2(4) == 16;
    assert Pow2(8) == 16 * Pow2(4);
    assert Pow2(12) == 16 * Pow2(8);
    assert Pow2(16) == 16 * Pow2(12);
  }

  lemma U16Is(x: int, t: nat)
    requires t < 16
    ensures U16(x)[15 - t] == BitAt(x, t)
  {
    Powers();
    if t < 8 {
      ByteIs(x % 0x100, t);
      LowBits(x, 8, t);
    } else {
      var high := x / 0x100;
      ByteIs(high % 0x100, t - 8);
      LowBits(high, 8, t - 8);
      HighBits(x, 8, t - 8);
    }
    hide Byte, BitAt;
  }

  lemma U32Is(x: int, t: nat)
    requires t < 32
    ensures U32(x)[31 - t] == BitAt(x, t)
  {
    hide U32, U16, BitAt;
    U32Halves(x, t);
    if t < 16 {
      LowIs(x, t);
    } else {
      HighIs(x, t - 16);
    }
  }

  lemma U32Halves(x: int, t: nat)
    requires t < 32
    ensures U32(x)[31 - t] == if t < 16 then U16(x % 0x10000)[15 - t] else U16(x / 0x10000 % 0x10000)[31 - t]
  {
    hide U16;
  }

  lemma LowIs(x: int, t: nat)
    requires t < 16
    ensures U16(x % 0x10000)[15 - t] == BitAt(x, t)
  {
    Powers();
    hide U16, BitAt;
    U16Is(x % 0x10000, t);
    LowBits(x, 16, t);
  }

  lemma HighIs(x: int, t: nat)
    requires t < 16
    ensures U16(x / 0x10000 % 0x10000)[15 - t] == BitAt(x, t + 16)
  {
    Powers();
    hide U16, BitAt;
    LowIs(x / 0x10000, t);
    HighBits(x, 16, t);
  }

  // Where bit t of a word stands among its 32 bits of the message: the most
  // significant byte comes first, and of a byte its least significant bit.
  function Place(t: nat): nat
    requires t < 32
  {
    8 * (3 - t / 8) + t % 8
  }

  lemma WordBitIs(w: Word, t: nat)
    requires t < 32
    ensures WordBits(w)[Place(t)] == w[31 - t]
  {
    var k, b := 3 - t / 8, t % 8;
    ByteBitIs(WordBytes(w), k, b);
    assert Reverse(WordBytes(w)[k])[b] == WordBytes(w)[k][7 - b];
  }

  lemma {:induction false} ByteBitIs(bytes: seq<seq<bool>>, k: nat, b: nat)
    requires (forall j :: 0 <= j < |bytes| ==> |bytes[j]| == 8) && k < |bytes| && b < 8
    ensures 8 * k + b < |ByteBits(bytes)| && ByteBits(bytes)[8 * k + b] == Reverse(bytes[k])[b]
  {
    if k > 0 {
      ByteBitIs(bytes[1..], k - 1, b);
    }
  }

  lemma {:induction false} MessageBitIs(words: seq<Word>, w: nat, p: nat)
    requires w < |words| && p < 32
    ensures MessageBits(words)[32 * w + p] == WordBits(words[w])[p]
  {
    if w > 0 {
      MessageBitIs(words[1..], w - 1, p);
    }
  }

  // Each field of the header is in its word, each bit in its place.
  lemma FieldsStandInOrder(stad: int, bmi: int, bmhdid: int, chkStart: int, chkEnd: int, crcRange: int, crcRangeInv: int,
                           w: nat, t: nat)
    requires w < 6 && t < 32
    ensures MessageBits(HeaderWords(stad, bmi, bmhdid, chkStart, chkEnd, crcRange, crcRangeInv))[32 * w + Place(t)]
            <==> FieldBit(stad, bmi, bmhdid, chkStart, chkEnd, crcRange, crcRangeInv, w, t)
  {
    var words := HeaderWords(stad, bmi, bmhdid, chkStart, chkEnd, crcRange, crcRangeInv);
    hide U16, U32, MessageBits, WordBits, BitOf, BitAt;
    MessageBitIs(words, w, Place(t));
    WordBitIs(words[w], t);
    if w == 1 {
      BootWordIs(bmi, bmhdid, t);
    } else {
      var x := match w case 0 => stad case 2 => chkStart case 3 => chkEnd case 4 => crcRange case _ => crcRangeInv;
      assert words[w] == U32(x);
      U32Is(x, t);
      BitAtIs(x, t);
    }
  }

  lemma BootWordIs(bmi: int, bmhdid: int, t: nat)
    requires t < 32
    ensures (U16(bmhdid) + U16(bmi))[31 - t] <==> if t < 16 then BitOf(bmi, t) else BitOf(bmhdid, t - 16)
  {
    hide U16, BitOf, BitAt;
    if t < 16 {
      U16Is(bmi, t);
      BitAtIs(bmi, t);
    } else {
      U16Is(bmhdid, t - 16);
      BitAtIs(bmhdid, t - 16);
    }
  }

  // A change of one of the last four fields, in its 32 bits, changes the CRC.
  lemma RangeFieldsAreCaught(stad: int, bmi: int, bmhdid: int, a: seq<int>, n: nat, v: int)
    requires |a| == 4 && n < 4 && a[n] % 0x1_0000_0000 != v % 0x1_0000_0000
    ensures var b := a[n := v];
      Head(HeaderWords(stad, bmi, bmhdid, a[0], a[1], a[2], a[3])) !=
      Head(HeaderWords(stad, bmi, bmhdid, b[0], b[1], b[2], b[3]))
  {
    hide U32, U16, Head;
    if U32(a[n]) == U32(v) {
      U32Determines(a[n], v);
    }
    var b := a[n := v];
    var ws := HeaderWords(stad, bmi, bmhdid, a[0], a[1], a[2], a[3]);
    OneWordIsCaught(ws, n + 2, U32(v));
    assert ws[n + 2 := U32(v)] == HeaderWords(stad, bmi, bmhdid, b[0], b[1], b[2], b[3]);
  }
}
