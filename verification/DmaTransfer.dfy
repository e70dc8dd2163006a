// How bytes travel to and from the DMA service of the Linum board: packed four
// to a message word, twelve to a load, sixteen to a reply.
module DmaTransfer {

  type byte = x: int | 0 <= x < 256

  const XFER_MAX: nat := 16
  const LOAD_MAX: nat := 12
  const WORDS: nat := 6

  const WRAP: nat := 0x1_0000_0000

  datatype Status = OK | EINVAL | ETIMEOUT

  function Min(a: nat, b: nat): nat { if a <= b then a else b }

  function Weight(i: nat): nat { if i == 0 then 1 else if i == 1 then 0x100 else if i == 2 then 0x1_0000 else 0x100_0000 }

  // Up to four bytes as a word, the first in the low bits.
  function WordOf(s: seq<byte>): nat
    requires |s| <= 4
  {
    if s == [] then 0 else WordOf(s[..|s| - 1]) + s[|s| - 1] * Weight(|s| - 1)
  }

  // Byte i of a word.
  function ByteOf(w: nat, i: nat): byte { w / Weight(i) % 256 }

  lemma WordBound(s: seq<byte>)
    requires |s| <= 4
    ensures WordOf(s) < (if |s| == 4 then 0x1_0000_0000 else Weight(|s|))
  {
    if s != [] {
      WordBound(s[..|s| - 1]);
    }
  }

  lemma Below(w: nat, k: nat)
    ensures (w + 0x100 * k) % 0x100 == w % 0x100
    ensures (w + 0x100 * k) / 0x100 == w / 0x100 + k
    ensures (w + 0x1_0000 * k) / 0x1_0000 == w / 0x1_0000 + k
  {
  }

  // A byte put above what a word holds can be read back, and hides nothing.
  lemma ByteOnTop(w: nat, b: byte, n: nat, i: nat)
    requires n < 4 && i <= n && w < Weight(n)
    ensures ByteOf(w + b * Weight(n), i) == if i == n then b else ByteOf(w, i)
  {
    hide ByteOf;
    if n == 3 {
      TopOfFour(w, b, i);
    } else if n == 2 {
      TopOfThree(w, b, i);
    } else if n == 1 {
      TopOfTwo(w, b, i);
    } else {
      TopOfOne(b);
    }
  }

  lemma TopOfOne(b: byte)
    ensures ByteOf(b, 0) == b
  {
  }

  lemma TopOfTwo(w: nat, b: byte, i: nat)
    requires i <= 1 && w < 0x100
    ensures ByteOf(w + b * 0x100, i) == if i == 1 then b else ByteOf(w, i)
  {
    Below(w, b);
  }

  lemma TopOfThree(w: nat, b: byte, i: nat)
    requires i <= 2 && w < 0x1_0000
    ensures ByteOf(w + b * 0x1_0000, i) == if i == 2 then b else ByteOf(w, i)
  {
    Below(w, 0x100 * b);
    Below(w / 0x100, b);
    Below(w, b);
  }

  lemma TopOfFour(w: nat, b: byte, i: nat)
    requires i <= 3 && w < 0x100_0000
    ensures ByteOf(w + b * 0x100_0000, i) == if i == 3 then b else ByteOf(w, i)
  {
    if i == 0 {
      Below(w, 0x1_0000 * b);
    } else if i == 1 {
      Below(w, 0x1_0000 * b);
      Below(w / 0x100, 0x100 * b);
    } else if i == 2 {
      Below(w, 0x100 * b);
      Below(w / 0x1_0000, b);
    }
  }

  lemma {:induction false} WordReadsBack(s: seq<byte>, i: nat)
    requires |s| <= 4 && i < |s|
    ensures ByteOf(WordOf(s), i) == s[i]
  {
    var front := s[..|s| - 1];
    WordBound(front);
    ByteOnTop(WordOf(front), s[|s| - 1], |s| - 1, i);
    if i < |s| - 1 {
      WordReadsBack(front, i);
    }
  }

  // A little-endian number, read from its low end.
  function Horner(s: seq<byte>): nat { if s == [] then 0 else s[0] as nat + 256 * Horner(s[1..]) }

  // A word is its bytes as a little-endian number.
  lemma WordIsLittleEndian(s: seq<byte>)
    requires |s| <= 4
    ensures WordOf(s) == Horner(s)
  {
    if |s| == 4 {
      var a, b, c, d := s[0], s[1], s[2], s[3];
      assert s == [a, b, c, d];
      OfFour(a, b, c, d);
    } else if |s| == 3 {
      assert s == [s[0], s[1], s[2]];
      OfThree(s[0], s[1], s[2]);
    } else if |s| == 2 {
      assert s == [s[0], s[1]];
      OfTwo(s[0], s[1]);
    } else if |s| == 1 {
      assert s == [s[0]] && s[..0] == [];
    }
  }

  lemma OfTwo(a: byte, b: byte)
    ensures WordOf([a, b]) == Horner([a, b]) == a + 0x100 * b
  {
    assert [a, b][..1] == [a] && [a][..0] == [] && [a, b][1..] == [b] && [b][1..] == [];
    assert WordOf([a]) == a && Horner([b]) == b;
  }

  lemma OfThree(a: byte, b: byte, c: byte)
    ensures WordOf([a, b, c]) == Horner([a, b, c]) == a + 0x100 * b + 0x1_0000 * c
  {
    OfTwo(a, b);
    OfTwo(b, c);
    assert [a, b, c][..2] == [a, b] && [a, b, c][1..] == [b, c];
  }

  lemma OfFour(a: byte, b: byte, c: byte, d: byte)
    ensures WordOf([a, b, c, d]) == Horner([a, b, c, d]) == a + 0x100 * b + 0x1_0000 * c + 0x100_0000 * d
  {
    OfThree(a, b, c);
    OfThree(b, c, d);
    assert [a, b, c, d][..3] == [a, b, c] && [a, b, c, d][1..] == [b, c, d];
  }

  // The bytes of the word at w0 + j, out of the first n packed ones.
  function Group(data: seq<byte>, n: nat, j: nat): (g: seq<byte>)
    requires n <= |data|
    ensures |g| <= 4
  {
    if 4 * j >= n then [] else data[4 * j..Min(4 * j + 4, n)]
  }

  predicate HoldsWord(words: seq<nat>, w0: nat, data: seq<byte>, n: nat, j: nat)
    requires n <= |data| && w0 + j < |words|
  {
    words[w0 + j] == WordOf(Group(data, n, j))
  }

  // Words w0 on hold the first n bytes of the data, and zeros.
  ghost predicate Holds(words: seq<nat>, w0: nat, count: nat, data: seq<byte>, n: nat) {
    && w0 + count <= |words| && n <= |data| && n <= 4 * count
    && forall j :: 0 <= j < count ==> HoldsWord(words, w0, data, n, j)
  }

  lemma GroupGrows(data: seq<byte>, n: nat, j: nat)
    requires n < |data|
    ensures Group(data, n + 1, j) == if j == n / 4 then Group(data, n, j) + [data[n]] else Group(data, n, j)
    ensures j == n / 4 ==> |Group(data, n, j)| == n % 4
  {
    if j < n / 4 {
      assert 4 * j + 4 <= n;
    }
  }

  // One more byte, at the right place of the right word.
  lemma OneMoreByte(words: seq<nat>, w0: nat, count: nat, data: seq<byte>, n: nat)
    requires Holds(words, w0, count, data, n) && n < |data| && n < 4 * count
    ensures Holds(words[w0 + n / 4 := words[w0 + n / 4] + data[n] * Weight(n % 4)], w0, count, data, n + 1)
  {
    var q, m := n / 4, n + 1;
    var words' := words[w0 + q := words[w0 + q] + data[n] * Weight(n % 4)];
    forall j | 0 <= j < count ensures HoldsWord(words', w0, data, m, j) {
      assert HoldsWord(words, w0, data, n, j);
      if j == q {
        TopOfGroup(words[w0 + q], data, n);
      } else {
        GroupGrows(data, n, j);
      }
      hide Group, WordOf, Weight;
    }
    assert m <= 4 * count;
  }

  // The word the next byte goes to.
  lemma TopOfGroup(w: nat, data: seq<byte>, n: nat)
    requires n < |data| && w == WordOf(Group(data, n, n / 4))
    ensures WordOf(Group(data, n + 1, n / 4)) == w + data[n] * Weight(n % 4)
  {
    var g := Group(data, n, n / 4);
    GroupGrows(data, n, n / 4);
    assert (g + [data[n]])[..|g|] == g;
    hide Group, Weight;
  }

  lemma HoldsNothing(words: seq<nat>, w0: nat, count: nat, data: seq<byte>)
    requires w0 + count <= |words| && forall k :: w0 <= k < w0 + count ==> words[k] == 0
    ensures Holds(words, w0, count, data, 0)
  {
  }

  method Clear(msg: array<nat>, w0: nat, count: nat)
    requires w0 + count <= msg.Length
    modifies msg
    ensures forall k :: w0 <= k < w0 + count ==> msg[k] == 0
    ensures forall k :: 0 <= k < msg.Length && !(w0 <= k < w0 + count) ==> msg[k] == old(msg[k])
  {
    var j := 0;
    while j < count
      invariant j <= count && forall k :: w0 <= k < w0 + j ==> msg[k] == 0
      invariant forall k :: 0 <= k < msg.Length && !(w0 <= k < w0 + j) ==> msg[k] == old(msg[k])
    {
      msg[w0 + j] := 0;
      j := j + 1;
    }
  }

  // Packing clears the words and ors the bytes in; where a byte goes the word
  // still is zero, so that oring is adding.
  method Pack(msg: array<nat>, w0: nat, count: nat, data: seq<byte>, len: nat)
    requires w0 + count <= msg.Length && Min(len, 4 * count) <= |data|
    modifies msg
    ensures Holds(msg[..], w0, count, data, Min(len, 4 * count))
    ensures forall k :: 0 <= k < msg.Length && !(w0 <= k < w0 + count) ==> msg[k] == old(msg[k])
  {
    Clear(msg, w0, count);
    ghost var was := msg[..];
    HoldsNothing(was, w0, count, data);
    var i := 0;
    hide Holds;
    while i < len && i < 4 * count
      invariant i <= len && i <= 4 * count && Holds(msg[..], w0, count, data, i)
      invariant forall k :: 0 <= k < msg.Length && !(w0 <= k < w0 + count) ==> msg[k] == was[k]
    {
      OneMoreByte(msg[..], w0, count, data, i);
      ghost var next := msg[..][w0 + i / 4 := msg[w0 + i / 4] + data[i] * Weight(i % 4)];
      msg[w0 + i / 4] := msg[w0 + i / 4] + data[i] * Weight(i % 4);
      assert msg[..] == next;
      i := i + 1;
    }
  }

  lemma HoldsReadsBack(words: seq<nat>, w0: nat, count: nat, data: seq<byte>, n: nat, i: nat)
    requires Holds(words, w0, count, data, n) && i < n
    ensures i / 4 < count && ByteOf(words[w0 + i / 4], i % 4) == data[i]
  {
    assert HoldsWord(words, w0, data, n, i / 4);
    WordReadsBack(Group(data, n, i / 4), i % 4);
  }

  method Unpack(words: seq<nat>, w0: nat, dst: array<byte>, len: nat)
    requires Min(len, XFER_MAX) <= dst.Length && w0 + (Min(len, XFER_MAX) + 3) / 4 <= |words|
    modifies dst
    ensures forall i :: 0 <= i < Min(len, XFER_MAX) ==> dst[i] == ByteOf(words[w0 + i / 4], i % 4)
    ensures forall i :: Min(len, XFER_MAX) <= i < dst.Length ==> dst[i] == old(dst[i])
  {
    var i := 0;
    while i < len && i < XFER_MAX
      invariant i <= len && i <= XFER_MAX
      invariant forall k :: 0 <= k < i ==> dst[k] == ByteOf(words[w0 + k / 4], k % 4)
      invariant forall k :: i <= k < dst.Length ==> dst[k] == old(dst[k])
    {
      dst[i] := ByteOf(words[w0 + i / 4], i % 4);
      i := i + 1;
    }
  }

  // ------------------------------------------------------------ the slot's buffer

  // The first n bytes of the data replace those from the offset on.
  predicate Written(before: seq<byte>, after: seq<byte>, offset: nat, data: seq<byte>, n: nat) {
    && |after| == |before| && n <= |data|
    && forall k :: 0 <= k < |before| ==> after[k] == if offset <= k < offset + n then data[k - offset] else before[k]
  }

  lemma WrittenIsSpliced(before: seq<byte>, after: seq<byte>, offset: nat, data: seq<byte>, n: nat)
    requires Written(before, after, offset, data, n) && offset + n <= |before|
    ensures after == before[..offset] + data[..n] + before[offset + n..]
  {
  }

  // The bytes a message carries.
  function Carried(words: seq<nat>, w0: nat, len: nat): (s: seq<byte>)
    requires w0 + (len + 3) / 4 <= |words|
    ensures |s| == len
  {
    seq<byte>(len, i requires 0 <= i < len => ByteOf(words[w0 + i / 4], i % 4))
  }

  lemma HoldsCarries(words: seq<nat>, w0: nat, count: nat, data: seq<byte>)
    requires Holds(words, w0, count, data, |data|)
    ensures Carried(words, w0, |data|) == data
  {
    forall i | 0 <= i < |data| ensures Carried(words, w0, |data|)[i] == data[i] {
      HoldsReadsBack(words, w0, count, data, |data|, i);
    }
  }

  // The check of a load.
  predicate Accepts(open: bool, offset: nat, len: nat) {
    open && len != 0 && (offset + len) % WRAP <= XFER_MAX
  }

  // Byte i of a load is read from the scratch array and written to the buffer.
  predicate Lands(offset: nat, i: nat) { (offset + i) % WRAP < XFER_MAX && i < XFER_MAX }

  // An accepted load stays in its arrays if and only if its sum does not wrap.
  lemma WrappedLoadStrays(offset: nat, len: nat)
    requires offset < WRAP && len < WRAP && Accepts(true, offset, len)
    ensures (forall j: nat :: j < len ==> Lands(offset, j)) <==> offset + len < WRAP
    ensures offset + len < WRAP ==> offset + len <= XFER_MAX
  {
    if offset + len >= WRAP {
      var j := if offset >= XFER_MAX then 0 else XFER_MAX - offset;
      assert j < len && !Lands(offset, j);
    }
  }

  // What an accepted load takes is in the message if and only if its length is
  // at most twelve; a longer one takes bytes of the word behind it.
  lemma LoadIsInMessageExactly(words: seq<nat>, len: nat)
    requires |words| == WORDS && len <= XFER_MAX
    ensures len <= LOAD_MAX <==>
      forall a: nat, b: nat :: Carried(words + [a], 3, len) == Carried(words + [b], 3, len)
  {
    if len <= LOAD_MAX {
      forall a: nat, b: nat ensures Carried(words + [a], 3, len) == Carried(words + [b], 3, len) {
        assert forall i :: 0 <= i < len ==> (words + [a])[3 + i / 4] == (words + [b])[3 + i / 4];
      }
    } else {
      assert Carried(words + [0], 3, len)[12] == ByteOf(0, 0) == 0;
      assert Carried(words + [1], 3, len)[12] == ByteOf(1, 0) == 1;
    }
  }

  // Part of the slot that carries data.
  class Slot {
    var open: bool
    var buf: seq<byte>
    var len: nat
    var jobs: nat          // arms handed to the worker

    predicate Valid()
      reads this
    {
      |buf| == XFER_MAX && len <= XFER_MAX
    }

    // The sum of offset and length is taken in 32 bits.  `inside` tells whether
    // every byte that is read and written lies in its array.
    method DoLoad(offset: nat, data: seq<byte>, len: nat) returns (s: Status, ghost inside: bool)
      requires Valid() && offset < WRAP && len < WRAP && |data| == XFER_MAX
      modifies this`buf
      ensures Valid() && (s.OK? <==> Accepts(open, offset, len)) && (s.OK? || s.EINVAL?)
      ensures inside <==> (s.OK? ==> offset + len < WRAP)
      ensures s.OK? && inside ==> Written(old(buf), buf, offset, data, len)
      ensures !s.OK? ==> buf == old(buf)
    {
      inside := true;
      if !open || len == 0 || (offset + len) % WRAP > XFER_MAX {
        return EINVAL, inside;
      }
      ghost var was := buf;
      WrappedLoadStrays(offset, len);
      var i := 0;
      while i < len
        invariant i <= len && |buf| == XFER_MAX
        invariant inside <==> forall j: nat :: j < i ==> Lands(offset, j)
        invariant inside ==> i <= XFER_MAX && (offset + len < WRAP ==> Written(was, buf, offset, data, i))
      {
        if (offset + i) % WRAP < XFER_MAX && i < XFER_MAX {
          buf := buf[(offset + i) % WRAP := data[i]];
        } else {
          inside := false;
        }
        assert (offset + i) % WRAP < XFER_MAX && i < XFER_MAX <==> Lands(offset, i);
        i := i + 1;
      }
      s := OK;
    }

    // The dispatcher's side of a load message; `behind` is the word that follows
    // the message in memory.
    method HandleLoad(words: seq<nat>, behind: nat) returns (s: Status, ghost inside: bool)
      requires Valid() && |words| == WORDS && words[1] < WRAP && words[2] < WRAP
      modifies this`buf
      ensures Valid() && (s.OK? <==> Accepts(open, words[1], words[2])) && (s.OK? || s.EINVAL?)
      ensures inside <==> (s.OK? ==> words[1] + words[2] < WRAP)
      ensures s.OK? && inside ==>
        words[2] <= XFER_MAX && Written(old(buf), buf, words[1], Carried(words + [behind], 3, words[2]), words[2])
      ensures !s.OK? ==> buf == old(buf)
    {
      var tmp := new byte[XFER_MAX];
      Unpack(words + [behind], 3, tmp, words[2]);
      ghost var taken := tmp[..];
      s, inside := DoLoad(words[1], tmp[..], words[2]);
      if s.OK? && words[1] + words[2] < WRAP {
        assert taken[..words[2]] == Carried(words + [behind], 3, words[2]);
      }
    }

    method HandleArm(words: seq<nat>) returns (s: Status)
      requires Valid() && |words| == WORDS
      modifies this`len, this`jobs
      ensures Valid() && (s.OK? <==> open && 0 < words[2] <= XFER_MAX)
      ensures if s.OK? then len == words[2] && jobs == old(jobs) + 1 else len == old(len) && jobs == old(jobs)
    {
      if !open || words[2] == 0 || words[2] > XFER_MAX {
        return EINVAL;
      }
      len := words[2];
      jobs := jobs + 1;
      s := OK;
    }
  }

  lemma MessageCarries(words: seq<nat>, behind: nat, len: nat)
    requires |words| == WORDS && len <= LOAD_MAX
    ensures Carried(words + [behind], 3, len) == Carried(words, 3, len)
  {
    assert forall i :: 0 <= i < len ==> (words + [behind])[3 + i / 4] == words[3 + i / 4];
  }

  // One load message: at most twelve bytes at an offset.
  method Load(slot: Slot, offset: nat, data: seq<byte>) returns (s: Status)
    requires slot.Valid() && 0 < |data| <= LOAD_MAX && offset + |data| <= XFER_MAX
    modifies slot`buf
    ensures slot.Valid() && (s.OK? <==> slot.open)
    ensures slot.buf ==
            if s.OK? then old(slot.buf)[..offset] + data + old(slot.buf)[offset + |data|..] else old(slot.buf)
  {
    var msg := new nat[WORDS](_ => 0);
    msg[1] := offset;
    msg[2] := |data|;
    Pack(msg, 3, 3, data, |data|);
    HoldsCarries(msg[..], 3, 3, data);
    hide Holds, Carried, Written;
    ghost var inside;
    ghost var words := msg[..];
    s, inside := slot.HandleLoad(msg[..], 0);
    MessageCarries(words, 0, |data|);
    if s.OK? {
      WrittenIsSpliced(old(slot.buf), slot.buf, offset, data, |data|);
      assert data[..|data|] == data;
    }
  }

  lemma NextLoad(was: seq<byte>, mid: seq<byte>, data: seq<byte>, off: nat, chunk: nat)
    requires off + chunk <= |was| && off + chunk <= |data| && mid == data[..off] + was[off..]
    ensures |mid| == |was|
    ensures mid[..off] + data[off..off + chunk] + mid[off + chunk..] == data[..off + chunk] + was[off + chunk..]
  {
  }

  datatype Source = Null | Bytes(data: seq<byte>)

  // The client's arm: the buffer in loads of twelve bytes, and then the arm.
  // The worker gets exactly the client's bytes, and gets the job only if every
  // load was taken.
  method Arm(slot: Slot, buf: Source, len: nat) returns (s: Status)
    requires slot.Valid() && (buf.Bytes? ==> len <= |buf.data|)
    modifies slot
    ensures slot.Valid() && (s.OK? <==> old(slot.open) && 0 < len <= XFER_MAX)
    ensures s.OK? ==> slot.len == len && slot.jobs == old(slot.jobs) + 1
    ensures s.OK? && buf.Bytes? ==> slot.buf == buf.data[..len] + old(slot.buf)[len..]
    ensures s.OK? && buf.Null? ==> slot.buf == old(slot.buf)
    ensures !s.OK? ==> slot.jobs == old(slot.jobs)
  {
    if len == 0 || len > XFER_MAX {
      return EINVAL;
    }
    if buf.Bytes? {
      var off := 0;
      ghost var was := slot.buf;
      while off < len
        invariant slot.Valid() && slot.open == old(slot.open) && slot.jobs == old(slot.jobs)
        invariant |was| == XFER_MAX && slot.buf == buf.data[..Min(off, len)] + was[Min(off, len)..]
        invariant off > 0 ==> slot.open
      {
        var chunk := len - off;
        if chunk > LOAD_MAX {
          chunk := LOAD_MAX;
        }
        ghost var mid := slot.buf;
        s := Load(slot, off, buf.data[off..off + chunk]);
        if !s.OK? {
          return;
        }
        NextLoad(was, mid, buf.data, off, chunk);
        off := off + LOAD_MAX;
      }
    }
    var msg := new nat[WORDS](_ => 0);
    msg[2] := len;
    s := slot.HandleArm(msg[..]);
  }

  // The reply of a wait that the worker has signalled, and the client's side of
  // it.  A success of a receive brings the first bytes of the slot's buffer, as
  // many as were asked for and armed; behind them, and after a transmit, what
  // the dispatcher's scratch array held travels along.  Nothing else arrives.
  method Wait(slot: Slot, m2p: bool, result: Status, dst: array<byte>, wanted: bool, len: nat, scratch: seq<byte>)
    returns (s: Status, ghost got: nat)
    requires slot.Valid() && |scratch| == XFER_MAX && (wanted ==> Min(len, XFER_MAX) <= dst.Length)
    modifies dst
    ensures s == if slot.open then result else EINVAL
    ensures got == if m2p then 0 else Min(len, slot.len)
    ensures s.OK? && wanted ==> forall i :: 0 <= i < Min(len, XFER_MAX) ==>
      dst[i] == if i < got then slot.buf[i] else scratch[i]
    ensures forall i :: 0 <= i < dst.Length && !(s.OK? && wanted && i < len && i < XFER_MAX) ==> dst[i] == old(dst[i])
  {
    var count := if m2p then 0 else Min(len, slot.len);
    got := count;
    s := if slot.open then result else EINVAL;
    var reply := new nat[WORDS](_ => 0);
    var tmp := slot.buf[..count] + scratch[count..];
    if s.OK? && len > 0 {
      Pack(reply, 2, 4, tmp, len);
    }
    if s.OK? && wanted && len > 0 {
      var words := reply[..];
      ghost var was := dst[..];
      Unpack(words, 2, dst, len);
      forall i | 0 <= i < Min(len, XFER_MAX) ensures dst[i] == tmp[i] {
        HoldsReadsBack(words, 2, 4, tmp, Min(len, XFER_MAX), i);
      }
    }
  }
}
