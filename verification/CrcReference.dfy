// What the boot-header CRC computes: the reflected CRC-32 of section 3.2.9 of
// IEEE 802.3, both as a byte-at-a-time register and as a polynomial remainder.
module CrcReference {
  import opened Crc
  import opened CrcErrors

  // ------------------------------------------------- the reflected register

  // The byte-at-a-time form: a byte is added to the low end of the register,
  // which then moves right eight times.
  function ShiftRight(r: Word): Word {
    Xor([false] + r[..31], Gate(r[31], POLY_REFLECTED))
  }

  function ShiftsRight(r: Word, n: nat): Word
    decreases n
  {
    if n == 0 then r else ShiftsRight(ShiftRight(r), n - 1)
  }

  function LowByte(b: seq<bool>): Word
    requires |b| <= 32
  {
    Zeros(32 - |b|) + b
  }

  function ReflectedByte(r: Word, b: seq<bool>): Word
    requires |b| == 8
  {
    ShiftsRight(Xor(r, LowByte(b)), 8)
  }

  function ReflectedFold(r: Word, bytes: seq<seq<bool>>): Word
    requires forall k :: 0 <= k < |bytes| ==> |bytes[k]| == 8
    decreases |bytes|
  {
    if bytes == [] then r else ReflectedFold(ReflectedByte(r, bytes[0]), bytes[1..])
  }

  function Crc32(bytes: seq<seq<bool>>): Word
    requires forall k :: 0 <= k < |bytes| ==> |bytes[k]| == 8
  {
    Not(ReflectedFold(ONES, bytes))
  }

  // The words serialised with the most significant byte first.
  function BigEndian(words: seq<Word>): (bytes: seq<seq<bool>>)
    ensures forall k :: 0 <= k < |bytes| ==> |bytes[k]| == 8
  {
    if words == [] then [] else WordBytes(words[0]) + BigEndian(words[1..])
  }

  lemma ReflectedGenerator()
    ensures POLY_REFLECTED == Reverse(POLY)
  {
    FourBytes(0x04, 0xC1, 0x1D, 0xB7);
    FourBytes(0xED, 0xB8, 0x83, 0x20);
    ReflectedBytes();
    hide Byte, U16, U32;
  }

  lemma ReflectedBytes()
    ensures Byte(0xED) == Reverse(Byte(0xB7)) && Byte(0xB8) == Reverse(Byte(0x1D))
    ensures Byte(0x83) == Reverse(Byte(0xC1)) && Byte(0x20) == Reverse(Byte(0x04))
  {
  }

  // Fed with a bit, the left-moving register mirrors the right-moving one that
  // has the bit added at its low end.
  lemma MirrorShift(c: Word, b: bool)
    ensures Reverse(Shift(c, b)) == ShiftRight(Xor(Reverse(c), LowByte([b])))
  {
    ReflectedGenerator();
    hide U32;
    var r := Xor(Reverse(c), LowByte([b]));
    assert r[31] == (c[0] != b);
    forall i | 0 <= i < 32 ensures Reverse(Shift(c, b))[i] == ShiftRight(r)[i] {
      assert Reverse(Shift(c, b))[i] == Shift(c, b)[31 - i];
      if i > 0 {
        assert ([false] + r[..31])[i] == r[i - 1] == Reverse(c)[i - 1] == c[32 - i];
      }
    }
  }

  // Adding a byte at once and then moving eight times mirrors feeding the
  // byte's bits one by one, the lowest first.
  lemma {:induction false} MirrorByte(c: Word, b: seq<bool>)
    requires |b| <= 32
    ensures Reverse(Feed(c, Reverse(b))) == ShiftsRight(Xor(Reverse(c), LowByte(b)), |b|)
    decreases |b|
  {
    if b == [] {
      assert Xor(Reverse(c), LowByte(b)) == Reverse(c);
    } else {
      var n := |b| - 1;
      assert Reverse(b)[0] == b[n] && Reverse(b)[1..] == Reverse(b[..n]);
      hide U32, Shift, ShiftRight, LowByte, Xor, Reverse;
      MirrorShift(c, b[n]);
      MirrorByte(Shift(c, b[n]), b[..n]);
      ShiftSplit(Reverse(c), b);
    }
  }

  lemma ShiftSplit(r: Word, b: seq<bool>)
    requires 0 < |b| <= 32
    ensures var n := |b| - 1;
      ShiftRight(Xor(r, LowByte(b))) == Xor(ShiftRight(Xor(r, LowByte([b[n]]))), LowByte(b[..n]))
  {
    hide U32;
    var n := |b| - 1;
    var x, y := Xor(r, LowByte(b)), Xor(r, LowByte([b[n]]));
    assert x[31] == y[31];
    forall i | 0 <= i < 32 ensures ([false] + x[..31])[i] == (([false] + y[..31])[i] != LowByte(b[..n])[i]) {
      if i > 0 {
        assert LowByte(b)[i - 1] == LowByte(b[..n])[i];
      }
    }
  }

  lemma {:induction false} MirrorMessage(c: Word, bytes: seq<seq<bool>>)
    requires forall k :: 0 <= k < |bytes| ==> |bytes[k]| == 8
    ensures Reverse(Feed(c, ByteBits(bytes))) == ReflectedFold(Reverse(c), bytes)
    decreases |bytes|
  {
    if bytes != [] {
      FeedConcat(c, Reverse(bytes[0]), ByteBits(bytes[1..]));
      MirrorByte(c, bytes[0]);
      MirrorMessage(Feed(c, Reverse(bytes[0])), bytes[1..]);
    }
  }

  lemma {:induction false} MessageIsBytes(words: seq<Word>)
    ensures MessageBits(words) == ByteBits(BigEndian(words))
  {
    hide Reverse, WordBytes;
    if words != [] {
      MessageIsBytes(words[1..]);
      ByteBitsConcat(WordBytes(words[0]), BigEndian(words[1..]));
    }
  }

  lemma {:induction false} ByteBitsConcat(a: seq<seq<bool>>, b: seq<seq<bool>>)
    ensures ByteBits(a + b) == ByteBits(a) + ByteBits(b)
  {
    if a == [] {
      assert a + b == b;
    } else {
      assert (a + b)[1..] == a[1..] + b;
      ByteBitsConcat(a[1..], b);
    }
  }

  lemma OnesMirror()
    ensures Reverse(ONES) == ONES
  {
    OnesAll();
    hide U32;
  }

  // The header CRC is the CRC-32 of the words written out big-endian.
  lemma HeadIsCrc32(words: seq<Word>)
    ensures Head(words) == Crc32(BigEndian(words))
  {
    hide U32, Feed, MessageBits, ReflectedFold, ByteBits;
    MessageIsBytes(words);
    MirrorMessage(ONES, BigEndian(words));
    OnesMirror();
    ReverseNot(Feed(ONES, MessageBits(words)));
  }

  lemma ReverseNot(r: Word)
    ensures Reverse(Not(r)) == Not(Reverse(r))
  {
  }

  // ------------------------------------------------- the polynomial remainder

  // Long division: the next coefficient is brought down, and the generator is
  // subtracted whenever the leading coefficient is one.
  function Divide(c: Word, bits: seq<bool>): Word
    decreases |bits|
  {
    if bits == [] then c else Divide(BringDown(c, bits[0]), bits[1..])
  }

  function BringDown(c: Word, b: bool): Word {
    Xor(c[1..] + [b], Gate(c[0], POLY))
  }

  // The remainder of a bit string, times x to the 32nd, by the generator.
  function Remainder(bits: seq<bool>): Word {
    Divide(Zeros(32), bits + Zeros(32))
  }

  function ComplementFirst32(bits: seq<bool>): seq<bool>
    requires |bits| >= 32
  {
    Not(bits[..32]) + bits[32..]
  }

  lemma {:induction false} DivideConcat(c: Word, a: seq<bool>, b: seq<bool>)
    ensures Divide(c, a + b) == Divide(Divide(c, a), b)
    decreases |a|
  {
    hide BringDown;
    if a == [] {
      assert a + b == b;
    } else {
      assert (a + b)[1..] == a[1..] + b;
      DivideConcat(BringDown(c, a[0]), a[1..], b);
    }
  }

  lemma {:induction false} DivideZeros(c: Word, n: nat)
    ensures Divide(c, Zeros(n)) == FeedZeros(c, n)
    decreases n
  {
    if n > 0 {
      assert Zeros(n)[1..] == Zeros(n - 1);
      assert BringDown(c, false) == Shift(c, false);
      hide BringDown, Shift, U32;
      DivideZeros(Shift(c, false), n - 1);
    }
  }

  lemma BringDownXor(c: Word, b: bool)
    ensures BringDown(c, b) == Xor(Shift(c, false), Zeros(31) + [b])
  {
    hide U32;
  }

  lemma ShiftGate(d: Word, b: bool)
    ensures Xor(Shift(d, false), Gate(b, POLY)) == Shift(d, b)
  {
    hide U32;
  }

  // Bringing down a one 32 places later than it is fed amounts to the
  // generator: that is the step by which feeding saves the appended zeros.
  lemma BringDownLate(c: Word, b: bool)
    ensures FeedZeros(BringDown(c, b), 32) == Shift(FeedZeros(c, 32), b)
  {
    hide FeedZeros, BringDown, Shift, Xor, Gate, Zeros, U32;
    BringDownXor(c, b);
    FeedZerosXor(Shift(c, false), Zeros(31) + [b], 32);
    LastBitBecomesGenerator(b);
    ShiftFeedZeros(c, 32);
    ShiftGate(FeedZeros(c, 32), b);
  }

  lemma FeedZerosXor(c: Word, d: Word, n: nat)
    ensures FeedZeros(Xor(c, d), n) == Xor(FeedZeros(c, n), FeedZeros(d, n))
  {
    hide Feed, FeedZeros, Shift, U32;
    FeedZerosIsFeed(c, n);
    FeedZerosIsFeed(d, n);
    FeedZerosIsFeed(Xor(c, d), n);
    FeedLinear(c, d, Zeros(n), Zeros(n));
    assert Xor(Zeros(n), Zeros(n)) == Zeros(n);
  }

  lemma {:induction false} ShiftFeedZeros(c: Word, n: nat)
    ensures FeedZeros(Shift(c, false), n) == Shift(FeedZeros(c, n), false)
    decreases n
  {
    hide Shift;
    if n > 0 {
      ShiftFeedZeros(Shift(c, false), n - 1);
    }
  }

  // While the one bit travels to the top nothing is subtracted.
  lemma {:induction false} BitTravels(n: nat, b: bool)
    requires n < 32
    ensures FeedZeros(Zeros(31 - n) + [b] + Zeros(n), 32 - n) == Gate(b, POLY)
    decreases 32 - n
  {
    if n == 31 {
      BitAtTop(b);
    } else {
      BitMoves(n, b);
      hide Shift;
      BitTravels(n + 1, b);
    }
  }

  lemma BitMoves(n: nat, b: bool)
    requires n < 31
    ensures Shift(Zeros(31 - n) + [b] + Zeros(n), false) == Zeros(30 - n) + [b] + Zeros(n + 1)
  {
    hide U32;
  }

  lemma BitAtTop(b: bool)
    ensures FeedZeros(Zeros(0) + [b] + Zeros(31), 1) == Gate(b, POLY)
  {
    var w: Word := Zeros(0) + [b] + Zeros(31);
    assert w[1..] + [false] == Zeros(32) && w[0] == b;
    hide U32, Gate;
    assert Shift(w, false) == Gate(b, POLY);
    assert FeedZeros(w, 1) == FeedZeros(Shift(w, false), 0);
  }

  lemma LastBitBecomesGenerator(b: bool)
    ensures FeedZeros(Zeros(31) + [b], 32) == Gate(b, POLY)
  {
    hide FeedZeros, Gate;
    BitTravels(0, b);
    assert Zeros(31) + [b] + Zeros(0) == Zeros(31) + [b];
  }

  lemma {:induction false} FeedIsDivision(c: Word, bits: seq<bool>)
    ensures Feed(FeedZeros(c, 32), bits) == FeedZeros(Divide(c, bits), 32)
    decreases |bits|
  {
    hide FeedZeros, Shift, BringDown;
    if bits != [] {
      BringDownLate(c, bits[0]);
      FeedIsDivision(BringDown(c, bits[0]), bits[1..]);
    }
  }

  lemma FeedIsRemainder(bits: seq<bool>)
    ensures Feed(Zeros(32), bits) == Remainder(bits)
  {
    hide Feed, Divide, FeedZeros, U32;
    FeedZerosInjective(Zeros(32), 32);
    FeedIsDivision(Zeros(32), bits);
    DivideConcat(Zeros(32), bits, Zeros(32));
    DivideZeros(Divide(Zeros(32), bits), 32);
  }

  lemma OnesComplement(bits: seq<bool>)
    requires |bits| >= 32
    ensures Feed(ONES, bits) == Feed(Zeros(32), ComplementFirst32(bits))
  {
    var first := bits[..32];
    assert bits == first + bits[32..];
    hide Feed, FeedZeros, Pad, Xor, U32;
    FeedConcat(ONES, first, bits[32..]);
    FeedConcat(Zeros(32), Not(first), bits[32..]);
    FeedAtOnce(ONES, first);
    FeedAtOnce(Zeros(32), Not(first));
    XorOnes(first);
  }

  lemma XorOnes(a: seq<bool>)
    requires |a| == 32
    ensures Xor(ONES, Pad(a)) == Xor(Zeros(32), Pad(Not(a)))
  {
    OnesAll();
    hide U32;
  }

  lemma OnesAll()
    ensures forall i :: 0 <= i < 32 ==> ONES[i]
  {
    FourBytes(0xFF, 0xFF, 0xFF, 0xFF);
    ByteFF();
    hide Byte, U16, U32;
    Periodic(Byte(0xFF));
  }

  // The header CRC is the complemented remainder, with its bits reversed, of
  // the message whose first 32 bits are complemented.
  lemma HeadIsRemainder(words: seq<Word>)
    requires words != []
    ensures Head(words) == Reverse(Not(Remainder(ComplementFirst32(MessageBits(words)))))
  {
    hide Feed, Remainder, MessageBits, U32;
    OnesComplement(MessageBits(words));
    FeedIsRemainder(ComplementFirst32(MessageBits(words)));
  }
}
