// Cache maintenance of rectangles: row by row on the Linum board, whose cache
// has one level, and as a full-width strip on the EV-function board.
module CacheArea {
  import opened CacheLines

  // Where pixel column x of a row starts.
  function RowAt(buf: nat, stride: nat, x: nat, px: nat, row: nat): nat { buf + row * stride + x * px }

  datatype Rect = Rect(x: int, y: int, w: int, h: int)

  // Nothing to do for an empty rectangle.
  predicate Empty(buf: nat, stride: nat, rect: Rect, px: nat) {
    buf == 0 || rect.w <= 0 || rect.h <= 0 || px == 0 || stride == 0
  }

  predicate Upright(rect: Rect) { 0 <= rect.x && 0 <= rect.y }

  // The rectangle lies inside the rows of the buffer.
  predicate InStride(stride: nat, rect: Rect, px: nat) {
    Upright(rect) && (rect.x + rect.w) * px <= stride
  }

  // One call of the range operation.
  datatype Range = Range(a: nat, len: nat)

  predicate Holds(r: Range, b: nat) { r.a <= b < r.a + r.len }

  ghost predicate Covered(calls: seq<Range>, b: nat) {
    exists k :: 0 <= k < |calls| && Holds(calls[k], b)
  }

  // The bytes of row k of the rectangle.
  function RowRange(buf: nat, stride: nat, rect: Rect, px: nat, k: nat): Range
    requires 0 <= rect.x && 0 <= rect.y && 0 <= rect.w
  {
    Range(RowAt(buf, stride, rect.x, px, rect.y + k), rect.w * px)
  }

  // Byte j of the pixel in column cx and row cy.
  predicate IsPixelByte(buf: nat, stride: nat, px: nat, cx: int, cy: int, j: nat, b: nat) {
    j < px && b == buf + cy * stride + cx * px + j
  }

  // Byte b belongs to a pixel of the rectangle.
  ghost predicate InRect(buf: nat, stride: nat, rect: Rect, px: nat, b: nat) {
    && !Empty(buf, stride, rect, px)
    && exists cx: int, cy: int, j: nat ::
      rect.x <= cx < rect.x + rect.w && rect.y <= cy < rect.y + rect.h && IsPixelByte(buf, stride, px, cx, cy, j, b)
  }

  // Byte b belongs to a row of the rectangle.
  ghost predicate InRows(buf: nat, stride: nat, rect: Rect, px: nat, b: nat) {
    && !Empty(buf, stride, rect, px) && Upright(rect)
    && exists k: nat :: k < rect.h && Holds(RowRange(buf, stride, rect, px, k), b)
  }

  lemma NextRow(buf: nat, stride: nat, x: nat, px: nat, row: nat)
    ensures RowAt(buf, stride, x, px, row + 1) == RowAt(buf, stride, x, px, row) + stride
  {
  }

  lemma {:induction false} RowsOn(buf: nat, stride: nat, x: nat, px: nat, row: nat, n: nat)
    ensures RowAt(buf, stride, x, px, row + n) == RowAt(buf, stride, x, px, row) + n * stride
    decreases n
  {
    assert (row + n) * stride == row * stride + n * stride;
  }

  lemma TimesGrows(a: nat, b: nat, c: nat)
    requires a <= b
    ensures a * c <= b * c
  {
  }

  // A part of row k lies in a strip of h rows.
  lemma RowInStrip(base: nat, stride: nat, h: nat, k: nat, off: nat, len: nat, b: nat)
    requires k < h && off + len <= stride
    requires base + k * stride + off <= b < base + k * stride + off + len
    ensures base <= b < base + h * stride
  {
    TimesGrows(k + 1, h, stride);
    assert (k + 1) * stride == k * stride + stride;
    assert k * stride >= 0;
  }

  // Where row k of the rectangle lies in the strip of its rows.
  lemma RowInStripOf(buf: nat, stride: nat, rect: Rect, px: nat, k: nat)
    requires 0 <= rect.x && 0 <= rect.y && 0 <= rect.w
    ensures RowRange(buf, stride, rect, px, k) ==
            Range(RowAt(buf, stride, 0, px, rect.y) + k * stride + rect.x * px, rect.w * px)
  {
    RowsOn(buf, stride, rect.x, px, rect.y, k);
  }

  lemma Widths(rect: Rect, px: nat)
    ensures (rect.x + rect.w) * px == rect.x * px + rect.w * px
  {
  }

  // A strip of full rows holds a byte exactly if one of its rows does.
  lemma StripIsItsRows(base: nat, stride: nat, h: nat, b: nat) returns (k: nat)
    requires stride > 0 && base <= b < base + h * stride
    ensures k < h && base + k * stride <= b < base + k * stride + stride
  {
    k := (b - base) / stride;
    var d := b - base;
    assert d == k * stride + d % stride;
    if k >= h {
      TimesGrows(h, k, stride);
      assert false;
    }
  }

  // A byte of column cx of row cy lies in the row's range.
  lemma PixelInRow(buf: nat, stride: nat, rect: Rect, px: nat, cx: int, cy: int, j: nat, b: nat)
    requires !Empty(buf, stride, rect, px) && Upright(rect)
    requires rect.x <= cx < rect.x + rect.w && rect.y <= cy < rect.y + rect.h
    requires IsPixelByte(buf, stride, px, cx, cy, j, b)
    ensures Holds(RowRange(buf, stride, rect, px, cy - rect.y), b)
  {
    var k := cx - rect.x;
    assert cx * px == rect.x * px + k * px;
    TimesGrows(k + 1, rect.w, px);
    assert (k + 1) * px == k * px + px && k * px >= 0;
  }

  // A byte of a row's range belongs to one of its pixels.
  lemma RowIsPixels(buf: nat, stride: nat, rect: Rect, px: nat, k: nat, b: nat) returns (cx: int, j: nat)
    requires !Empty(buf, stride, rect, px) && Upright(rect)
    requires k < rect.h && Holds(RowRange(buf, stride, rect, px, k), b)
    ensures rect.x <= cx < rect.x + rect.w && IsPixelByte(buf, stride, px, cx, rect.y + k, j, b)
  {
    var base := RowAt(buf, stride, rect.x, px, rect.y + k);
    var c := StripIsItsRows(base, px, rect.w, b);
    cx, j := rect.x + c, b - (base + c * px);
    assert cx * px == rect.x * px + c * px;
  }

  // The pixels of a rectangle and its rows are the same bytes.
  lemma PixelsAreRows(buf: nat, stride: nat, rect: Rect, px: nat, b: nat)
    requires !Empty(buf, stride, rect, px) ==> Upright(rect)
    ensures InRect(buf, stride, rect, px, b) <==> InRows(buf, stride, rect, px, b)
  {
    if InRect(buf, stride, rect, px, b) {
      var cx: int, cy: int, j: nat :| rect.x <= cx < rect.x + rect.w && rect.y <= cy < rect.y + rect.h
        && IsPixelByte(buf, stride, px, cx, cy, j, b);
      PixelInRow(buf, stride, rect, px, cx, cy, j, b);
      assert Holds(RowRange(buf, stride, rect, px, cy - rect.y), b);
    }
    if InRows(buf, stride, rect, px, b) {
      var k: nat :| k < rect.h && Holds(RowRange(buf, stride, rect, px, k), b);
      var cx, j := RowIsPixels(buf, stride, rect, px, k, b);
      assert IsPixelByte(buf, stride, px, cx, rect.y + k, j, b);
    }
  }

  // The calls cover the rectangle and nothing else, both on the row loop and
  // on the fast path for full-width strips.
  method AreaOp(buf: nat, stride: nat, rect: Rect, px: nat) returns (calls: seq<Range>)
    requires !Empty(buf, stride, rect, px) ==> Upright(rect)
    ensures forall b: nat :: Covered(calls, b) <==> InRect(buf, stride, rect, px, b)
    ensures Empty(buf, stride, rect, px) ==> calls == []
    ensures forall j :: 0 <= j < |calls| ==> calls[j].len > 0
  {
    if Empty(buf, stride, rect, px) {
      return [];
    }
    var nbytes := rect.w * px;
    if rect.x == 0 && nbytes == stride {
      var row := RowAt(buf, stride, 0, px, rect.y);
      calls := [Range(row, rect.h * stride)];
      FullWidth(buf, stride, rect, px);
      return;
    }
    var row := RowAt(buf, stride, rect.x, px, rect.y);
    calls := [];
    var i := 0;
    while i < rect.h
      invariant 0 <= i <= rect.h && |calls| == i
      invariant row == RowAt(buf, stride, rect.x, px, rect.y + i)
      invariant forall k :: 0 <= k < i ==> calls[k] == RowRange(buf, stride, rect, px, k)
    {
      calls := calls + [Range(row, nbytes)];
      NextRow(buf, stride, rect.x, px, rect.y + i);
      row := row + stride;
      i := i + 1;
    }
    RowsCover(buf, stride, rect, px, calls);
  }

  lemma RowsCover(buf: nat, stride: nat, rect: Rect, px: nat, calls: seq<Range>)
    requires !Empty(buf, stride, rect, px) && Upright(rect) && |calls| == rect.h
    requires forall k :: 0 <= k < rect.h ==> calls[k] == RowRange(buf, stride, rect, px, k)
    ensures forall b: nat :: Covered(calls, b) <==> InRect(buf, stride, rect, px, b)
  {
    forall b: nat ensures Covered(calls, b) <==> InRect(buf, stride, rect, px, b) {
      PixelsAreRows(buf, stride, rect, px, b);
      hide RowRange, InRect;
    }
  }

  // One range of whole rows covers the same as the rows one by one.
  lemma FullWidth(buf: nat, stride: nat, rect: Rect, px: nat)
    requires !Empty(buf, stride, rect, px) && Upright(rect) && rect.x == 0 && rect.w * px == stride
    ensures var calls := [Range(buf + rect.y * stride, rect.h * stride)];
      forall b: nat :: Covered(calls, b) <==> InRect(buf, stride, rect, px, b)
  {
    var base := RowAt(buf, stride, 0, px, rect.y);
    var calls := [Range(base, rect.h * stride)];
    Widths(rect, px);
    forall b: nat ensures Covered(calls, b) <==> InRect(buf, stride, rect, px, b) {
      PixelsAreRows(buf, stride, rect, px, b);
      hide RowAt, RowRange, InRect;
      if Covered(calls, b) {
        assert Holds(calls[0], b);
        var k := StripIsItsRows(base, stride, rect.h, b);
        RowInStripOf(buf, stride, rect, px, k);
        assert Holds(RowRange(buf, stride, rect, px, k), b);
      }
      if InRows(buf, stride, rect, px, b) {
        RowsInStrip(buf, stride, rect, px, b);
        assert Holds(calls[0], b);
      }
    }
  }

  // The EV-function board sends one strip: it covers the rectangle, and only
  // bytes of its rows.
  method StripOp(buf: nat, stride: nat, rect: Rect, px: nat) returns (calls: seq<Range>)
    requires buf != 0 && rect.w > 0 && rect.h > 0 && stride != 0 ==> Upright(rect)
    ensures forall b: nat :: Covered(calls, b) <==>
      buf != 0 && rect.w > 0 && rect.h > 0 && stride != 0
      && buf + rect.y * stride <= b < buf + (rect.y + rect.h) * stride
    ensures InStride(stride, rect, px) ==> forall b: nat :: InRect(buf, stride, rect, px, b) ==> Covered(calls, b)
    ensures |calls| <= 1
  {
    if buf == 0 || rect.w <= 0 || rect.h <= 0 || stride == 0 {
      return [];
    }
    var row := RowAt(buf, stride, 0, px, rect.y);
    calls := [Range(row, rect.h * stride)];
    Rows(rect, stride);
    forall b: nat ensures Covered(calls, b) <==> buf + rect.y * stride <= b < buf + (rect.y + rect.h) * stride {
      assert Holds(calls[0], b) <==> buf + rect.y * stride <= b < buf + (rect.y + rect.h) * stride;
    }
    forall b: nat | InStride(stride, rect, px) && InRect(buf, stride, rect, px, b) ensures Covered(calls, b) {
      RectInStrip(buf, stride, rect, px, b);
      assert Holds(calls[0], b);
    }
  }

  lemma Rows(rect: Rect, stride: nat)
    ensures (rect.y + rect.h) * stride == rect.y * stride + rect.h * stride
  {
  }

  // A rectangle inside the stride lies in the strip of its rows.
  lemma RectInStrip(buf: nat, stride: nat, rect: Rect, px: nat, b: nat)
    requires InRect(buf, stride, rect, px, b) && InStride(stride, rect, px)
    ensures buf + rect.y * stride <= b < buf + rect.y * stride + rect.h * stride
  {
    PixelsAreRows(buf, stride, rect, px, b);
    RowsInStrip(buf, stride, rect, px, b);
  }

  lemma RowsInStrip(buf: nat, stride: nat, rect: Rect, px: nat, b: nat)
    requires InRows(buf, stride, rect, px, b) && InStride(stride, rect, px)
    ensures buf + rect.y * stride <= b < buf + rect.y * stride + rect.h * stride
  {
    var base := RowAt(buf, stride, 0, px, rect.y);
    assert base == buf + rect.y * stride;
    var k: nat :| k < rect.h && Holds(RowRange(buf, stride, rect, px, k), b);
    RowInStripOf(buf, stride, rect, px, k);
    Widths(rect, px);
    hide RowAt, RowRange;
    RowInStrip(base, stride, rect.h, k, rect.x * px, rect.w * px, b);
  }

  // ----------------------------------------------------- the Linum board's cache

  const TOP: nat := 0xFFFF_FFE0
  const LINES: nat := 0x800_0000      // 32-byte lines of the 32-bit space

  function Flushed(s: Line): Line {
    Maintained(Maintained(s, WriteBack, false), Invalidate, false)
  }

  // Some byte from a on lies in line i.
  predicate Meets(a: nat, len: nat, i: nat) { len > 0 && a < 32 * i + 32 && 32 * i < a + len }

  lemma MeetsExactly(r: Range, i: nat)
    ensures Meets(r.a, r.len, i) <==> exists b: nat :: Holds(r, b) && b / 32 == i
  {
    if Meets(r.a, r.len, i) {
      var b := if r.a < 32 * i then 32 * i else r.a;
      assert Holds(r, b) && b / 32 == i;
    }
  }

  ghost predicate MetBy(calls: seq<Range>, i: nat) {
    exists k :: 0 <= k < |calls| && Meets(calls[k].a, calls[k].len, i)
  }

  // Some byte of the rectangle lies in line i.
  ghost predicate RectMeets(buf: nat, stride: nat, rect: Rect, px: nat, i: nat) {
    exists b: nat :: InRect(buf, stride, rect, px, b) && b / 32 == i
  }

  // Some byte of the first n rectangles lies in line i.
  ghost predicate Listed(buf: nat, stride: nat, rects: seq<Rect>, px: nat, n: nat, i: nat) {
    exists k :: 0 <= k < n && k < |rects| && RectMeets(buf, stride, rects[k], px, i)
  }

  lemma CallsMeetRect(buf: nat, stride: nat, rect: Rect, px: nat, calls: seq<Range>, i: nat)
    requires forall b: nat :: Covered(calls, b) <==> InRect(buf, stride, rect, px, b)
    ensures MetBy(calls, i) <==> RectMeets(buf, stride, rect, px, i)
  {
    hide InRect;
    if MetBy(calls, i) {
      var k :| 0 <= k < |calls| && Meets(calls[k].a, calls[k].len, i);
      MeetsExactly(calls[k], i);
      var b: nat :| Holds(calls[k], b) && b / 32 == i;
      assert Covered(calls, b);
    }
    if RectMeets(buf, stride, rect, px, i) {
      var b: nat :| InRect(buf, stride, rect, px, b) && b / 32 == i;
      assert Covered(calls, b);
      var k :| 0 <= k < |calls| && Holds(calls[k], b);
      MeetsExactly(calls[k], i);
    }
  }

  lemma FlushIsIdempotent(s: Line)
    ensures Flushed(Flushed(s)) == Flushed(s)
  {
  }

  // Every line the first n rectangles list is flushed, the others are as before.
  ghost predicate FlushedListed(before: seq<Line>, after: seq<Line>, fb: nat, stride: nat, rects: seq<Rect>, n: nat) {
    && |after| == |before|
    && forall i :: 0 <= i < |before| ==>
      after[i] == if Listed(fb, stride, rects, 2, n, i) then Flushed(before[i]) else before[i]
  }

  ghost predicate FlushedBy(before: seq<Line>, after: seq<Line>, calls: seq<Range>) {
    && |after| == |before|
    && forall i :: 0 <= i < |before| ==>
      after[i] == if MetBy(calls, i) then Flushed(before[i]) else before[i]
  }

  lemma OneMoreCall(before: seq<Line>, mid: seq<Line>, after: seq<Line>, calls: seq<Range>, c: Range)
    requires FlushedBy(before, mid, calls) && FlushedBy(mid, after, [c])
    ensures FlushedBy(before, after, calls + [c])
  {
    var all := calls + [c];
    forall i | 0 <= i < |before| ensures after[i] == if MetBy(all, i) then Flushed(before[i]) else before[i] {
      FlushIsIdempotent(before[i]);
      if MetBy([c], i) {
        assert Meets(all[|calls|].a, all[|calls|].len, i);
      }
      if MetBy(calls, i) {
        var k :| 0 <= k < |calls| && Meets(calls[k].a, calls[k].len, i);
        assert Meets(all[k].a, all[k].len, i);
      }
      if MetBy(all, i) {
        var k :| 0 <= k < |all| && Meets(all[k].a, all[k].len, i);
        if k < |calls| {
          assert Meets(calls[k].a, calls[k].len, i);
        } else {
          assert Meets([c][0].a, [c][0].len, i);
        }
      }
    }
  }

  lemma OneMoreRect(before: seq<Line>, mid: seq<Line>, after: seq<Line>, fb: nat, stride: nat, rects: seq<Rect>,
                    n: nat, calls: seq<Range>)
    requires n < |rects| && FlushedListed(before, mid, fb, stride, rects, n) && FlushedBy(mid, after, calls)
    requires forall b: nat :: Covered(calls, b) <==> InRect(fb, stride, rects[n], 2, b)
    ensures FlushedListed(before, after, fb, stride, rects, n + 1)
  {
    forall i | 0 <= i < |before|
      ensures after[i] == if Listed(fb, stride, rects, 2, n + 1, i) then Flushed(before[i]) else before[i]
    {
      FlushIsIdempotent(before[i]);
      CallsMeetRect(fb, stride, rects[n], 2, calls, i);
      hide RectMeets, MetBy, Flushed;
      assert Listed(fb, stride, rects, 2, n + 1, i) <==>
        Listed(fb, stride, rects, 2, n, i) || RectMeets(fb, stride, rects[n], 2, i);
    }
  }

  const WRAP: nat := 0x1_0000_0000

  function Down32(a: nat): nat { a - a % 32 }

  // The length handed to the kernel for a range, in 32-bit arithmetic.
  function Span(addr: nat, size: nat): nat {
    (Down32((addr + size + 31) % WRAP) + WRAP - Down32(addr)) % WRAP
  }

  // Line i lies in the addresses from start on, which wrap around.
  predicate InSpan(i: nat, start: nat, len: nat)
    requires start <= WRAP
  {
    (32 * i + WRAP - start) % WRAP < len
  }

  ghost predicate FlushedSpan(before: seq<Line>, after: seq<Line>, start: nat, len: nat)
    requires start <= WRAP
  {
    && |after| == |before|
    && forall i :: 0 <= i < |before| ==> after[i] == if InSpan(i, start, len) then Flushed(before[i]) else before[i]
  }

  lemma Down32Shift(d: nat, x: nat)
    ensures Down32(32 * d + x) == 32 * d + Down32(x)
  {
    assert (32 * d + x) % 32 == x % 32;
  }

  // Rounding down and wrapping can be done in either order.
  lemma Down32Wraps(x: nat)
    requires x < 3 * WRAP
    ensures Down32(x % WRAP) == Down32(x) % WRAP
    ensures Down32(x) < WRAP <==> x < WRAP
  {
    var w: nat := if x < WRAP then 0 else if x < 2 * WRAP then 1 else 2;
    var y: nat := x - w * WRAP;
    assert x % WRAP == y;
    Down32Shift(0x800_0000 * w, y);
    assert Down32(y) < WRAP;
  }

  lemma ShiftWraps(start: nat, len: nat)
    requires start < WRAP && len < 2 * WRAP
    ensures ((start + len) % WRAP + WRAP - start) % WRAP == len % WRAP
  {
    var x := start + len;
    var w: nat := if x < WRAP then 0 else if x < 2 * WRAP then 1 else 2;
    assert x % WRAP == x - w * WRAP;
  }

  lemma DownOfSum(addr: nat, size: nat)
    ensures Down32(addr + size + 31) == Down32(addr) + Down32(addr % 32 + size + 31)
    ensures Down32(addr % 32 + size + 31) <= addr % 32 + size + 31 <= size + 62
  {
    var q, x := addr / 32, addr % 32 + size + 31;
    assert Down32(addr) == 32 * q && addr + size + 31 == 32 * q + x;
    Down32Shift(q, x);
  }

  lemma ModSmall(len: nat)
    requires len < 2 * WRAP
    ensures len % WRAP == len <==> len < WRAP
  {
  }

  // The span has the rounded length of the range, unless that is the whole
  // space or more, of which only the rest is left.
  lemma SpanExactly(addr: nat, size: nat)
    requires addr < WRAP && size < WRAP
    ensures Span(addr, size) == Down32(addr % 32 + size + 31) % WRAP
    ensures Span(addr, size) == Down32(addr % 32 + size + 31) <==> addr % 32 + size + 31 < WRAP
  {
    var x: nat := addr % 32 + size + 31;
    DownOfSum(addr, size);
    Down32Wraps(addr + size + 31);
    Down32Wraps(x);
    assert Down32(addr) <= addr;
    hide Down32;
    ShiftWraps(Down32(addr), Down32(x));
    ModSmall(Down32(x));
  }

  lemma SpanBelow(addr: nat, size: nat)
    requires 0 < size && addr + size <= TOP
    ensures Down32(addr) <= Down32(addr + size + 31) < WRAP
    ensures Span(addr, size) == Down32(addr + size + 31) - Down32(addr)
  {
  }

  lemma InSpanBelow(i: nat, start: nat, len: nat)
    requires start < WRAP && start + len < WRAP && 32 * i < WRAP
    ensures InSpan(i, start, len) <==> start <= 32 * i < start + len
  {
    if 32 * i < start {
      assert (32 * i + WRAP - start) % WRAP == 32 * i + WRAP - start;
    } else {
      assert (32 * i + WRAP - start) % WRAP == 32 * i - start;
    }
  }

  // Below the top of the space the span holds the lines of the range.
  lemma SpanIsRange(addr: nat, size: nat, i: nat)
    requires 0 < size && addr + size <= TOP && 32 * i < WRAP
    ensures InSpan(i, Down32(addr), Span(addr, size)) <==> Meets(addr, size, i)
  {
    SpanBelow(addr, size);
    InSpanBelow(i, Down32(addr), Span(addr, size));
    hide Span, InSpan;
    assert Down32(addr) == 32 * (addr / 32) && Down32(addr + size + 31) == 32 * ((addr + size + 31) / 32);
  }

  class LinumBoard {
    var lines: seq<Line>

    predicate Valid()
      reads this
    {
      |lines| <= LINES
    }

    // Whole lines around the range.  The kernel flushes the addresses it is given,
    // modulo the size of the space; a null address or an empty range is ignored.
    method CleanInvalidate(addr: nat, size: nat)
      requires Valid() && addr < WRAP && size < WRAP
      modifies this
      ensures Valid()
      ensures addr == 0 || size == 0 ==> lines == old(lines)
      ensures addr != 0 && size != 0 ==> FlushedSpan(old(lines), lines, Down32(addr), Span(addr, size))
      ensures addr != 0 && addr + size <= TOP ==> FlushedBy(old(lines), lines, [Range(addr, size)])
    {
      ghost var c := [Range(addr, size)];
      forall i | 0 <= i < |lines| ensures MetBy(c, i) <==> Meets(addr, size, i) {
        assert Meets(addr, size, i) ==> Meets(c[0].a, c[0].len, i);
      }
      if addr == 0 || size == 0 {
        return;
      }
      var start := Down32(addr);
      var end := Down32((addr + size + 31) % WRAP);
      var len := (end + WRAP - start) % WRAP;
      var before := lines;
      lines := seq(|before|, i requires 0 <= i < |before| =>
        if InSpan(i, start, len) then Flushed(before[i]) else before[i]);
      if addr + size <= TOP {
        forall i | 0 <= i < |before| ensures InSpan(i, start, len) <==> Meets(addr, size, i) {
          SpanIsRange(addr, size, i);
        }
      }
    }

    method CleanInvalidateArea(buf: nat, stride: nat, rect: Rect, px: nat) returns (ghost calls: seq<Range>)
      requires Valid()
      requires !Empty(buf, stride, rect, px) ==>
        InStride(stride, rect, px) && buf + (rect.y + rect.h) * stride <= TOP
      modifies this
      ensures Valid()
      ensures forall b: nat :: Covered(calls, b) <==> InRect(buf, stride, rect, px, b)
      ensures FlushedBy(old(lines), lines, calls)
    {
      var ops := AreaOp(buf, stride, rect, px);
      calls := ops;
      var k := 0;
      assert FlushedBy(lines, lines, ops[..0]);
      while k < |ops|
        invariant 0 <= k <= |ops| && Valid()
        invariant FlushedBy(old(lines), lines, ops[..k])
      {
        ghost var mid := lines;
        Bounded(buf, stride, rect, px, ops, k);
        CleanInvalidate(ops[k].a, ops[k].len);
        assert [Range(ops[k].a, ops[k].len)] == [ops[k]];
        OneMoreCall(old(lines), mid, lines, ops[..k], ops[k]);
        assert ops[..k] + [ops[k]] == ops[..k + 1];
        k := k + 1;
      }
      assert ops[..k] == ops;
    }

    // The present call: every listed rectangle.
    method PresentRects(fb: nat, stride: nat, rects: seq<Rect>)
      requires Valid()
      requires forall k :: 0 <= k < |rects| && !Empty(fb, stride, rects[k], 2) ==>
        InStride(stride, rects[k], 2) && fb + (rects[k].y + rects[k].h) * stride <= TOP
      modifies this
      ensures Valid() && FlushedListed(old(lines), lines, fb, stride, rects, |rects|)
    {
      var k := 0;
      while k < |rects|
        invariant 0 <= k <= |rects| && Valid()
        invariant FlushedListed(old(lines), lines, fb, stride, rects, k)
      {
        ghost var mid := lines;
        ghost var calls := CleanInvalidateArea(fb, stride, rects[k], 2);
        OneMoreRect(old(lines), mid, lines, fb, stride, rects, k, calls);
        k := k + 1;
      }
    }

    // The length a message with this many rectangles must have, when its header
    // and each rectangle take so many bytes.
    static function Needed(header: nat, each: nat, n: nat): nat { (header + n * each) % WRAP }

    // The present call up to the display: the checks of its message, and then
    // the listed rectangles, or the whole frame buffer when none is listed.
    method Present(buf: nat, len: nat, header: nat, each: nat, fb: nat, stride: nat, rects: seq<Rect>, bytes: nat)
      returns (ok: bool)
      requires Valid() && fb < WRAP && bytes < WRAP
      requires forall k :: 0 <= k < |rects| && !Empty(fb, stride, rects[k], 2) ==>
        InStride(stride, rects[k], 2) && fb + (rects[k].y + rects[k].h) * stride <= TOP
      modifies this
      ensures Valid()
      ensures ok <==>
        (buf != 0 && len >= header && fb != 0 && (rects == [] || len >= Needed(header, each, |rects|)))
      ensures ok && rects != [] ==> FlushedListed(old(lines), lines, fb, stride, rects, |rects|)
      ensures ok && rects == [] && bytes != 0 ==> FlushedSpan(old(lines), lines, Down32(fb), Span(fb, bytes))
      ensures ok && rects == [] && fb + bytes <= TOP ==> FlushedBy(old(lines), lines, [Range(fb, bytes)])
      ensures !ok ==> lines == old(lines)
    {
      if buf == 0 || len < header {
        return false;
      }
      if fb == 0 {
        return false;
      }
      if |rects| > 0 {
        if len < Needed(header, each, |rects|) {
          return false;
        }
        PresentRects(fb, stride, rects);
      } else {
        CleanInvalidate(fb, bytes);
      }
      ok := true;
    }
  }

  lemma Bounded(buf: nat, stride: nat, rect: Rect, px: nat, calls: seq<Range>, k: nat)
    requires k < |calls| && forall b: nat :: Covered(calls, b) <==> InRect(buf, stride, rect, px, b)
    requires !Empty(buf, stride, rect, px) ==>
      InStride(stride, rect, px) && buf + (rect.y + rect.h) * stride <= TOP
    requires forall j :: 0 <= j < |calls| ==> calls[j].len > 0
    ensures calls[k].a != 0 && calls[k].a + calls[k].len <= TOP
  {
    var first, last := calls[k].a, calls[k].a + calls[k].len - 1;
    assert Holds(calls[k], first) && Holds(calls[k], last);
    assert Covered(calls, first) && Covered(calls, last);
    RectInStrip(buf, stride, rect, px, first);
    RectInStrip(buf, stride, rect, px, last);
    Rows(rect, stride);
  }

  // Presenting a list of rectangles makes the display controller read what the
  // processor wrote, for every pixel of every rectangle, and changes nothing the
  // processor reads anywhere.
  lemma ListedPixelsAgree(before: seq<Line>, after: seq<Line>, fb: nat, stride: nat, rects: seq<Rect>, k: nat,
                          cx: int, cy: int, j: nat, b: nat)
    requires FlushedListed(before, after, fb, stride, rects, |rects|) && fb != 0 && stride != 0
    requires forall i :: 0 <= i < |before| ==> Honest(before[i]) && Placed(before[i], false)
    requires k < |rects| && rects[k].x <= cx < rects[k].x + rects[k].w && rects[k].y <= cy < rects[k].y + rects[k].h
    requires j < 2 && b == fb + cy * stride + 2 * cx + j && b / 32 < |before|
    ensures Agrees(after[b / 32])
    ensures forall i :: 0 <= i < |before| ==> CpuView(after[i]) == CpuView(before[i])
  {
    assert IsPixelByte(fb, stride, 2, cx, cy, j, b);
    assert InRect(fb, stride, rects[k], 2, b);
    assert RectMeets(fb, stride, rects[k], 2, b / 32);
    forall i | 0 <= i < |before|
      ensures CpuView(Flushed(before[i])) == CpuView(before[i]) && Agrees(Flushed(before[i]))
    {
      CleanThenInvalidate(before[i], false);
    }
  }

  // So does presenting without a list, for every byte of the frame buffer.
  lemma WholeBufferAgrees(before: seq<Line>, after: seq<Line>, fb: nat, bytes: nat, b: nat)
    requires FlushedBy(before, after, [Range(fb, bytes)])
    requires forall i :: 0 <= i < |before| ==> Honest(before[i]) && Placed(before[i], false)
    requires fb <= b < fb + bytes && b / 32 < |before|
    ensures Agrees(after[b / 32])
    ensures forall i :: 0 <= i < |before| ==> CpuView(after[i]) == CpuView(before[i])
  {
    MeetsExactly(Range(fb, bytes), b / 32);
    assert Holds(Range(fb, bytes), b);
    assert Meets([Range(fb, bytes)][0].a, [Range(fb, bytes)][0].len, b / 32);
    forall i | 0 <= i < |before|
      ensures CpuView(Flushed(before[i])) == CpuView(before[i]) && Agrees(Flushed(before[i]))
    {
      CleanThenInvalidate(before[i], false);
    }
  }
}
