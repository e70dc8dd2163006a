// The formatter's methods over a bounded buffer, and the chunked path of its
// text to the console server.
module Console {
  import opened Formatter

  const FMT_BUF: nat := 160
  const WRITE_MAX: nat := 256

  function Min(a: nat, b: nat): nat { if a <= b then a else b }

  // Text x put behind `before` in a buffer of cap characters.
  predicate Put(before: string, x: string, after: string, cap: nat) {
    after == (before + x)[..Min(cap, |before + x|)]
  }

  lemma PutTwice(a: string, x: string, b: string, y: string, c: string, cap: nat)
    requires |a| <= cap && Put(a, x, b, cap) && Put(b, y, c, cap)
    ensures Put(a, x + y, c, cap) && |b| <= cap
  {
    assert a + (x + y) == a + x + y;
  }

  lemma PutNothing(a: string, cap: nat)
    requires |a| <= cap
    ensures Put(a, "", a, cap)
  {
    assert a + "" == a;
  }

  // Once the buffer is full nothing more fits.
  lemma PutIntoFull(a: string, x: string, b: string, y: string, cap: nat)
    requires |a| <= cap && Put(a, x, b, cap) && |b| == cap
    ensures Put(a, x + y, b, cap)
  {
    PutTwice(a, x, b, y, b, cap) by {
      assert (b + y)[..cap] == b;
    }
  }

  lemma PutOne(a: string, x: string, b: string, c: char, cap: nat)
    requires |a| <= cap && Put(a, x, b, cap) && |b| < cap
    ensures Put(a, x + [c], b + [c], cap)
  {
    assert Put(b, [c], b + [c], cap) by {
      assert (b + [c])[..|b| + 1] == b + [c];
    }
    PutTwice(a, x, b, [c], b + [c], cap);
  }

  method FmtPad(out: array<char>, pos: nat, cap: nat, n: nat, width: nat, zero: bool) returns (p: nat)
    requires pos <= cap <= out.Length
    modifies out
    ensures pos <= p <= cap && Put(old(out[..pos]), Padding(n, width, zero), out[..p], cap)
  {
    var c := if zero then '0' else ' ';
    p := pos;
    var w := width;
    ghost var before := out[..pos];
    PutNothing(before, cap);
    while w > n
      invariant pos <= p <= cap && (w <= width || w == width) && (width > n ==> w >= n) && (width <= n ==> w == width)
      invariant Put(before, Repeat(c, width - w), out[..p], cap)
      decreases w
    {
      if p >= cap {
        assert Repeat(c, width - w) + Repeat(c, w - n) == Repeat(c, width - n);
        PutIntoFull(before, Repeat(c, width - w), out[..p], Repeat(c, w - n), cap);
        return;
      }
      PutOne(before, Repeat(c, width - w), out[..p], c, cap);
      assert Repeat(c, width - w) + [c] == Repeat(c, width - (w - 1));
      ghost var was := out[..p];
      out[p] := c;
      p := p + 1;
      assert out[..p] == was + [c];
      w := w - 1;
    }
  }

  function Reversed(s: string): string {
    if s == "" then "" else [s[|s| - 1]] + Reversed(s[..|s| - 1])
  }

  lemma ReversedGrows(s: string, c: char)
    ensures Reversed(s + [c]) == [c] + Reversed(s)
  {
    assert (s + [c])[..|s|] == s;
  }

  lemma {:induction false} ReversedLength(s: string)
    ensures |Reversed(s)| == |s|
  {
    if s != "" {
      ReversedLength(s[..|s| - 1]);
    }
  }

  // The digits still to come when w is left.
  function Head(w: nat, base: nat, upper: bool): string
    requires base == 10 || base == 16
  {
    if w == 0 then "" else Digits(w, base, upper)
  }

  lemma HeadStep(w: nat, base: nat, upper: bool)
    requires (base == 10 || base == 16) && w > 0
    ensures Head(w, base, upper) == Head(w / base, base, upper) + [DigitOf(w % base, upper)]
    ensures w / base < w
  {
    Quotient(w, base);
    FirstStep(w, base, upper);
  }

  lemma FirstStep(v: nat, base: nat, upper: bool)
    requires base == 10 || base == 16
    ensures Digits(v, base, upper) == Head(v / base, base, upper) + [DigitOf(v % base, upper)]
  {
    Quotient(v, base);
    hide DigitOf;
  }

  lemma Quotient(v: nat, base: nat)
    requires base == 10 || base == 16
    ensures v / base == 0 <==> v < base
    ensures v < base ==> v % base == v
    ensures v > 0 ==> v / base < v
  {
    if base == 10 {
      assert v / base == v / 10 && v % base == v % 10;
    } else {
      assert v / base == v / 16 && v % base == v % 16;
    }
  }

  // The digits of v, the last one first; the scratch array is long enough.
  method Reverse(v: nat, base: nat, upper: bool, tmp: array<char>) returns (n: nat)
    requires (base == 10 || base == 16) && 0 < |Digits(v, base, upper)| <= tmp.Length
    modifies tmp
    ensures n <= tmp.Length && Reversed(tmp[..n]) == Digits(v, base, upper) && n == |Digits(v, base, upper)|
  {
    ghost var all := Digits(v, base, upper);
    FirstStep(v, base, upper);
    assert Reversed([DigitOf(v % base, upper)]) == [DigitOf(v % base, upper)];
    hide Digits, Head, Reversed, DigitOf;
    tmp[0] := DigitOf(v % base, upper);
    n := 1;
    var w: nat := v / base;
    assert tmp[..1] == [DigitOf(v % base, upper)];
    while w > 0 && n < tmp.Length
      invariant 1 <= n <= tmp.Length
      invariant all == Head(w, base, upper) + Reversed(tmp[..n])
      decreases w
    {
      ghost var s := tmp[..n];
      HeadStep(w, base, upper);
      OneDigit(all, Head(w / base, base, upper), DigitOf(w % base, upper), s);
      tmp[n] := DigitOf(w % base, upper);
      assert tmp[..n + 1] == s + [tmp[n]];
      n := n + 1;
      w := w / base;
    }
    NoMore(all, tmp[..n], w, base, upper);
  }

  lemma OneDigit(all: string, head: string, d: char, s: string)
    requires all == head + [d] + Reversed(s)
    ensures all == head + Reversed(s + [d])
  {
    ReversedGrows(s, d);
    hide Reversed;
    assert head + [d] + Reversed(s) == head + ([d] + Reversed(s));
  }

  lemma NoMore(all: string, s: string, w: nat, base: nat, upper: bool)
    requires (base == 10 || base == 16) && all == Head(w, base, upper) + Reversed(s)
    requires w == 0 || |s| >= |all|
    ensures w == 0 && all == Reversed(s) && |s| == |all|
  {
    ReversedLength(s);
  }

  // Padding and then the digits, the last of the array first.
  method FmtDigits(out: array<char>, pos: nat, cap: nat, tmp: array<char>, len: nat, width: nat, zero: bool)
    returns (p: nat)
    requires pos <= cap <= out.Length && len <= tmp.Length && out != tmp
    modifies out
    ensures pos <= p <= cap
    ensures Put(old(out[..pos]), Padding(len, width, zero) + Reversed(tmp[..len]), out[..p], cap)
  {
    ghost var before, padding, digits := out[..pos], Padding(len, width, zero), Reversed(tmp[..len]);
    hide Reversed, Put, Padding;
    p := FmtPad(out, pos, cap, len, width, zero);
    var n := len;
    ghost var sent := "";
    assert padding + sent == padding;
    while n > 0
      invariant n <= len && pos <= p <= cap && sent + Reversed(tmp[..n]) == digits
      invariant Put(before, padding + sent, out[..p], cap)
    {
      if p >= cap {
        assert (padding + sent) + Reversed(tmp[..n]) == padding + digits;
        PutIntoFull(before, padding + sent, out[..p], Reversed(tmp[..n]), cap);
        return;
      }
      n := n - 1;
      ghost var was := out[..p];
      SendOne(before, padding, sent, tmp[..n], tmp[n], was, cap);
      assert tmp[..n + 1] == tmp[..n] + [tmp[n]];
      out[p] := tmp[n];
      p := p + 1;
      assert out[..p] == was + [tmp[n]];
      sent := sent + [tmp[n]];
    }
    NoneLeft(tmp[..n]);
    assert sent == digits;
  }

  lemma NoneLeft(s: string)
    requires s == ""
    ensures Reversed(s) == ""
  {
  }

  lemma SendOne(before: string, padding: string, sent: string, rest: string, c: char, b: string, cap: nat)
    requires |before| <= cap && Put(before, padding + sent, b, cap) && |b| < cap
    ensures Put(before, padding + (sent + [c]), b + [c], cap)
    ensures sent + Reversed(rest + [c]) == sent + [c] + Reversed(rest)
  {
    ReversedGrows(rest, c);
    hide Reversed, Put;
    PutOne(before, padding + sent, b, c, cap);
    assert padding + sent + [c] == padding + (sent + [c]);
  }

  method FmtU32(out: array<char>, pos: nat, cap: nat, v: nat, width: nat, zero: bool) returns (p: nat)
    requires pos <= cap <= out.Length && v < WORD
    modifies out
    ensures pos <= p <= cap && Put(old(out[..pos]), Padded(Digits(v, 10, false), width, zero), out[..p], cap)
  {
    var tmp := new char[10];
    assert Pow(10, 10) == 10_000_000_000;
    DigitsSuffice(v, 10, false, 10);
    var n := Reverse(v, 10, false, tmp);
    p := FmtDigits(out, pos, cap, tmp, n, width, zero);
  }

  method FmtI32(out: array<char>, pos: nat, cap: nat, v: int, width: nat, zero: bool) returns (p: nat)
    requires pos <= cap <= out.Length && -0x8000_0000 <= v < 0x8000_0000
    modifies out
    ensures pos <= p <= cap && Put(old(out[..pos]), SignedText(v, width, zero), out[..p], cap)
  {
    if v < 0 {
      ghost var before := out[..pos];
      p := pos;
      if p < cap {
        out[p] := '-';
        p := p + 1;
        assert out[..p] == before + "-";
      }
      assert Put(before, "-", out[..p], cap);
      ghost var signed := out[..p];
      var w := if width > 0 then width - 1 else 0;
      var m := -(v + 1) + 1;
      p := FmtU32(out, p, cap, m, w, zero);
      PutTwice(before, "-", signed, Padded(Digits(m, 10, false), w, zero), out[..p], cap);
    } else {
      p := FmtU32(out, pos, cap, v, width, zero);
    }
  }

  method FmtHex(out: array<char>, pos: nat, cap: nat, v: nat, upper: bool, width: nat, zero: bool) returns (p: nat)
    requires pos <= cap <= out.Length && v < WORD
    modifies out
    ensures pos <= p <= cap && Put(old(out[..pos]), Padded(Digits(v, 16, upper), width, zero), out[..p], cap)
  {
    var tmp := new char[16];
    assert Pow(16, 8) == WORD;
    DigitsSuffice(v, 16, upper, 8);
    var n := Reverse(v, 16, upper, tmp);
    p := FmtDigits(out, pos, cap, tmp, n, width, zero);
  }

  method FmtStr(out: array<char>, pos: nat, cap: nat, arg: Arg) returns (p: nat)
    requires pos <= cap <= out.Length && !arg.Word?
    modifies out
    ensures pos <= p <= cap
    ensures Put(old(out[..pos]), if arg.Text? then arg.s else "(null)", out[..p], cap)
  {
    var s := if arg.Text? then arg.s else "(null)";
    ghost var before := out[..pos];
    p := pos;
    var i := 0;
    PutNothing(before, cap);
    assert s[..0] == "";
    while i < |s|
      invariant i <= |s| && pos <= p <= cap
      invariant Put(before, s[..i], out[..p], cap)
    {
      if p >= cap {
        assert s[..i] + s[i..] == s;
        PutIntoFull(before, s[..i], out[..p], s[i..], cap);
        return;
      }
      PutOne(before, s[..i], out[..p], s[i], cap);
      ghost var was := out[..p];
      assert s[..i] + [s[i]] == s[..i + 1];
      out[p] := s[i];
      p := p + 1;
      assert out[..p] == was + [s[i]];
      i := i + 1;
    }
    assert s[..i] == s;
  }

  // ------------------------------------------------------------------ printf

  // One conversion behind what the buffer holds.
  method Convert(buf: array<char>, pos: nat, spec: Spec, args: seq<Arg>) returns (p: nat)
    requires pos < FMT_BUF == buf.Length && Fits(spec, args)
    modifies buf
    ensures pos <= p <= FMT_BUF && Put(old(buf[..pos]), Converted(spec, args), buf[..p], FMT_BUF)
  {
    var c := spec.letter;
    hide Put, SignedText, Padded, Digits;
    if c == 'c' {
      p := PutChar(buf, pos, (args[0].v % 256) as char);
    } else if c == 's' {
      p := FmtStr(buf, pos, FMT_BUF, args[0]);
    } else if c == 'd' || c == 'i' {
      p := FmtI32(buf, pos, FMT_BUF, Signed(args[0].v), spec.width, spec.zero);
    } else if c == 'u' {
      p := FmtU32(buf, pos, FMT_BUF, args[0].v, spec.width, spec.zero);
    } else if c == 'x' || c == 'X' {
      p := FmtHex(buf, pos, FMT_BUF, args[0].v, c == 'X', spec.width, spec.zero);
    } else if c == 'p' {
      p := ConvertPointer(buf, pos, args[0].v, spec.width, spec.zero);
    } else if c == '%' {
      p := PutChar(buf, pos, '%');
    } else {
      p := PutChar(buf, pos, '?');
    }
  }

  method PutChar(buf: array<char>, pos: nat, c: char) returns (p: nat)
    requires pos <= FMT_BUF == buf.Length
    modifies buf
    ensures pos <= p <= FMT_BUF && Put(old(buf[..pos]), [c], buf[..p], FMT_BUF)
  {
    ghost var before := buf[..pos];
    p := pos;
    if p < FMT_BUF {
      buf[p] := c;
      p := p + 1;
      assert buf[..p] == before + [c];
    }
  }

  method ConvertPointer(buf: array<char>, pos: nat, v: nat, width: nat, zero: bool) returns (p: nat)
    requires pos <= FMT_BUF == buf.Length && v < WORD
    modifies buf
    ensures pos <= p <= FMT_BUF
    ensures Put(old(buf[..pos]), "0x" + Padded(Digits(v, 16, false), width, zero), buf[..p], FMT_BUF)
  {
    ghost var s0, x := buf[..pos], Padded(Digits(v, 16, false), width, zero);
    hide Put, Padded, Digits;
    p := PutChar(buf, pos, '0');
    ghost var s1 := buf[..p];
    p := PutChar(buf, p, 'x');
    ghost var s2 := buf[..p];
    PutTwice(s0, "0", s1, "x", s2, FMT_BUF);
    p := FmtHex(buf, p, FMT_BUF, v, false, width, zero);
    assert "0" + "x" == "0x";
    PutTwice(s0, "0x", s2, x, buf[..p], FMT_BUF);
  }

  // The flags, width and letter of the conversion at i.
  method ParseSpec(fmt: string, i: nat) returns (spec: Spec)
    requires i <= |fmt| && LetterAt(fmt, i) < |fmt|
    ensures spec == SpecAt(fmt, i)
  {
    var j := i;
    var zero := fmt[j] == '0';
    if zero {
      j := j + 1;
    }
    ghost var start := j;
    WidthIsDigits(fmt, start);
    var width := 0;
    while j < |fmt| && IsDigit(fmt[j])
      invariant start <= j <= WidthEnd(fmt, start) && WidthEnd(fmt, j) == WidthEnd(fmt, start)
      invariant width == WidthValue(fmt, start, j)
    {
      width := (width * 10 + DigitValue(fmt[j])) % WORD;
      j := j + 1;
    }
    if fmt[j] == 'l' || fmt[j] == 'z' {
      j := j + 1;
    }
    spec := Spec(zero, width, fmt[j], j + 1);
  }

  function FirstPart(s: string): string { s[..Min(FMT_BUF, |s|)] }

  // One character or conversion of the format.
  method Piece(fmt: string, i: nat, args: seq<Arg>, buf: array<char>, pos: nat)
    returns (p: nat, j: nat, rest: seq<Arg>, ghost text: string)
    requires i < |fmt| && WellFormed(fmt, i, args) && pos < FMT_BUF == buf.Length
    modifies buf
    ensures pos <= p <= FMT_BUF && i < j <= |fmt| && WellFormed(fmt, j, rest)
    ensures Expand(fmt, i, args) == text + Expand(fmt, j, rest)
    ensures Put(old(buf[..pos]), text, buf[..p], FMT_BUF)
  {
    hide Put, Converted;
    if fmt[i] != '%' {
      text := [fmt[i]];
      p := PutChar(buf, pos, fmt[i]);
      j, rest := i + 1, args;
    } else {
      var spec := ParseSpec(fmt, i + 1);
      text := Converted(spec, args);
      p := Convert(buf, pos, spec, args);
      j, rest := spec.next, Rest(spec, args);
    }
  }

  lemma JoinPiece(done: string, before: string, text: string, after: string, all: string, tail: string)
    requires Put("", done, before, FMT_BUF) && Put(before, text, after, FMT_BUF) && all == done + (text + tail)
    ensures Put("", done + text, after, FMT_BUF) && all == done + text + tail
  {
    PutTwice("", done, before, text, after, FMT_BUF);
  }

  lemma JoinLast(done: string, after: string, all: string, tail: string)
    requires Put("", done, after, FMT_BUF) && all == done + tail && (tail == "" || |after| == FMT_BUF)
    ensures after == FirstPart(all)
  {
    if tail == "" {
      assert done + "" == done;
    } else {
      PutIntoFull("", done, after, tail, FMT_BUF);
    }
    assert "" + all == all;
  }

  // The formatted text, cut to the buffer.
  method Format(fmt: string, args: seq<Arg>, buf: array<char>) returns (pos: nat)
    requires WellFormed(fmt, 0, args) && buf.Length == FMT_BUF
    modifies buf
    ensures pos <= FMT_BUF && buf[..pos] == FirstPart(Expand(fmt, 0, args))
  {
    pos := 0;
    var i := 0;
    var rest := args;
    ghost var done, all := "", Expand(fmt, 0, args);
    assert Put("", done, buf[..0], FMT_BUF);
    assert done + all == all;
    assert forall r: seq<Arg> :: WellFormed(fmt, |fmt|, r) ==> Expand(fmt, |fmt|, r) == "";
    hide Put, Expand, WellFormed, FirstPart;
    while i < |fmt| && pos < FMT_BUF
      invariant i <= |fmt| && pos <= FMT_BUF && WellFormed(fmt, i, rest)
      invariant Put("", done, buf[..pos], FMT_BUF) && all == done + Expand(fmt, i, rest)
      decreases |fmt| - i
    {
      ghost var before := buf[..pos];
      ghost var text;
      pos, i, rest, text := Piece(fmt, i, rest, buf, pos);
      JoinPiece(done, before, text, buf[..pos], all, Expand(fmt, i, rest));
      done := done + text;
    }
    JoinLast(done, buf[..pos], all, Expand(fmt, i, rest));
  }

  // ------------------------------------------------------------- to the server

  // What the UART receives for a text.
  function Cooked(s: string): string {
    if s == "" then "" else CookedChar(s[0]) + Cooked(s[1..])
  }

  function CookedChar(c: char): string { if c == '\n' then "\r\n" else [c] }

  lemma CookedFirst(c: char, s: string)
    ensures Cooked([c] + s) == CookedChar(c) + Cooked(s)
  {
    hide CookedChar;
    assert ([c] + s)[1..] == s;
  }

  lemma {:induction false} CookedOfTwo(a: string, b: string)
    ensures Cooked(a + b) == Cooked(a) + Cooked(b)
  {
    assert Cooked("") == "";
    hide Cooked, CookedChar;
    if a == "" {
      assert a + b == b;
    } else {
      CookedOfTwo(a[1..], b);
      CookedFirst(a[0], a[1..]);
      CookedFirst(a[0], a[1..] + b);
      assert a == [a[0]] + a[1..];
      assert a + b == [a[0]] + (a[1..] + b);
    }
  }

  // A write message: a length and the bytes that travel with it.
  datatype Message = Write(len: nat, data: string)

  class Server {
    const chunkMax: nat       // what one message holds
    var up: bool              // the server's endpoint exists
    var fifo: string          // what the UART has received
    var early: string         // what was put out without the server

    predicate Valid()
      reads this
    {
      chunkMax > 0
    }

    method Putc(c: char)
      modifies this`fifo
      ensures fifo == old(fifo) + Cooked([c])
    {
      assert [c][1..] == "";
      if c == '\n' {
        fifo := fifo + ['\r'];
      }
      fifo := fifo + [c];
    }

    // The server's side of one message.
    method Serve(msg: Message)
      requires |msg.data| == chunkMax
      modifies this`fifo
      ensures fifo == old(fifo) + Cooked(msg.data[..Min(msg.len, chunkMax)])
    {
      var len := msg.len;
      if len > 0 {
        if len > chunkMax {
          len := chunkMax;
        }
        var i := 0;
        assert msg.data[..0] == "" && Cooked("") == "";
        while i < len
          invariant i <= len
          invariant fifo == old(fifo) + Cooked(msg.data[..i])
        {
          CookedOfTwo(msg.data[..i], [msg.data[i]]);
          assert msg.data[..i] + [msg.data[i]] == msg.data[..i + 1];
          Putc(msg.data[i]);
          i := i + 1;
        }
      } else {
        assert msg.data[..0] == "";
      }
    }

    // Without a server every character goes straight out.
    method EarlyWrite(buf: array<char>, len: nat)
      requires len <= buf.Length
      modifies this`early
      ensures early == old(early) + buf[..len]
    {
      var at := 0;
      while at < len
        invariant at <= len && early == old(early) + buf[..at]
      {
        early := early + [buf[at]];
        at := at + 1;
      }
    }

    // The client's side: chunk after chunk, whatever is left in the message
    // buffer behind a short chunk.
    method ConsoleWrite(buf: array<char>, len: nat, scratch: string)
      requires Valid() && len <= buf.Length && |scratch| == chunkMax
      modifies this`fifo, this`early
      ensures var text := buf[..Min(len, WRITE_MAX)];
        if up then fifo == old(fifo) + Cooked(text) && early == old(early)
        else early == old(early) + text && fifo == old(fifo)
    {
      var total := if len > WRITE_MAX then WRITE_MAX else len;
      var at := 0;
      assert buf[..0] == "";
      if !up {
        EarlyWrite(buf, total);
        return;
      }
      var dst := scratch;
      while at < total
        invariant at <= total && |dst| == chunkMax
        invariant fifo == old(fifo) + Cooked(buf[..at]) && early == old(early)
      {
        var n := if total - at < chunkMax then total - at else chunkMax;
        dst := buf[at..at + n] + dst[n..];
        assert dst[..n] == buf[at..at + n];
        CookedOfTwo(buf[..at], buf[at..at + n]);
        assert buf[..at] + buf[at..at + n] == buf[..at + n];
        Serve(Write(n, dst));
        at := at + n;
      }
    }

    // The whole path: what comes out of the UART is the first 160 characters of
    // the expanded format.
    method Printf(fmt: string, args: seq<Arg>, scratch: string)
      requires Valid() && WellFormed(fmt, 0, args) && |scratch| == chunkMax
      modifies this`fifo, this`early
      ensures up ==> fifo == old(fifo) + Cooked(FirstPart(Expand(fmt, 0, args))) && early == old(early)
      ensures !up ==> early == old(early) + FirstPart(Expand(fmt, 0, args)) && fifo == old(fifo)
    {
      var buf := new char[FMT_BUF];
      var pos := Format(fmt, args, buf);
      ConsoleWrite(buf, pos, scratch);
    }
  }
}