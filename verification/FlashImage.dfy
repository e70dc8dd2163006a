// From an ELF file to the flash image: which segments are taken, where their
// bytes go, and what reading the printed image back puts in memory.
module FlashImage {
  import opened HexFormat
  import HexWriter

  const FLASH_BASE: nat := 0x80000000
  const FLASH_TOP: nat := 0x80400000
  const CACHED_BASE: nat := 0xA0000000
  const CACHED_TOP: nat := 0xA0400000

  predicate IsFlash(paddr: nat) {
    FLASH_BASE <= paddr < FLASH_TOP || CACHED_BASE <= paddr < CACHED_TOP
  }

  function Normalize(paddr: nat): nat {
    if CACHED_BASE <= paddr < CACHED_TOP then FLASH_BASE + (paddr - CACHED_BASE) else paddr
  }

  // Both windows show the same flash: normalising maps each onto the first one
  // to one, and does nothing the second time.
  lemma WindowsAgree(p: nat, q: nat)
    requires IsFlash(p) && IsFlash(q)
    ensures FLASH_BASE <= Normalize(p) < FLASH_TOP && Normalize(Normalize(p)) == Normalize(p)
    ensures Normalize(p) == Normalize(q) <==> p % 0x400000 == q % 0x400000
  {
  }

  datatype Segment = Segment(offset: nat, paddr: nat, filesz: nat)

  datatype Error = NotElf | Truncated | NoSegments

  datatype Result<T> = Ok(value: T) | Err(error: Error)

  // ------------------------------------------------------------- ELF headers

  function U16At(data: seq<byte>, i: nat): nat
    requires i + 2 <= |data|
  {
    data[i] as nat + 256 * data[i + 1] as nat
  }

  function U32At(data: seq<byte>, i: nat): nat
    requires i + 4 <= |data|
  {
    U16At(data, i) + 0x10000 * U16At(data, i + 2)
  }

  // The program header at off, when it is one the flash image takes.
  function SegmentAt(data: seq<byte>, off: nat): Option<Segment>
    requires off + 32 <= |data|
  {
    var kind, offset, paddr, filesz := U32At(data, off), U32At(data, off + 4), U32At(data, off + 12), U32At(data, off + 16);
    if kind != 1 || filesz == 0 || !IsFlash(paddr) then None else Some(Segment(offset, Normalize(paddr), filesz))
  }

  // The segments of n program headers from off on; the first header that is not
  // wholly in the file ends the table.
  function Segments(data: seq<byte>, off: nat, size: nat, n: nat): (segs: seq<Segment>)
    ensures forall k :: 0 <= k < |segs| ==> FLASH_BASE <= segs[k].paddr < FLASH_TOP && 0 < segs[k].filesz
    decreases n
  {
    if n == 0 || off + 32 > |data| then []
    else match SegmentAt(data, off)
      case None => Segments(data, off + size, size, n - 1)
      case Some(seg) => [seg] + Segments(data, off + size, size, n - 1)
  }

  // The header at off is a non-empty loadable segment in flash, namely seg.
  predicate IsTaken(data: seq<byte>, off: nat, seg: Segment)
    requires off + 32 <= |data|
  {
    && U32At(data, off) == 1 && IsFlash(U32At(data, off + 12)) && U32At(data, off + 16) > 0
    && seg == Segment(U32At(data, off + 4), Normalize(U32At(data, off + 12)), U32At(data, off + 16))
  }

  // Header i of n and all before it lie in the file, and header i is seg.
  predicate TakenAt(data: seq<byte>, start: nat, size: nat, n: nat, seg: Segment, i: nat) {
    i < n && InFile(data, start, size, i) && IsTaken(data, HeaderAt(start, size, i), seg)
  }

  predicate InFile(data: seq<byte>, start: nat, size: nat, i: nat)
    ensures InFile(data, start, size, i) ==> HeaderAt(start, size, i) + 32 <= |data|
  {
    forall j :: 0 <= j <= i ==> HeaderAt(start, size, j) + 32 <= |data|
  }

  // The segments that are taken are exactly those of the flash headers in front
  // of the first header that is not wholly in the file.
  lemma {:induction false} SegmentsExactly(data: seq<byte>, start: nat, size: nat, n: nat, seg: Segment)
    ensures seg in Segments(data, start, size, n) <==> exists i: nat :: TakenAt(data, start, size, n, seg, i)
    decreases n
  {
    if n > 0 && start + 32 <= |data| {
      SegmentsExactly(data, start + size, size, n - 1, seg);
      FirstHeader(data, start, size, n, seg);
      if seg in Segments(data, start + size, size, n - 1) {
        var i: nat :| TakenAt(data, start + size, size, n - 1, seg, i);
        NextHeader(data, start, size, i);
        assert TakenAt(data, start, size, n, seg, i + 1);
      }
      if exists i: nat :: TakenAt(data, start, size, n, seg, i) {
        var i: nat :| TakenAt(data, start, size, n, seg, i);
        if i > 0 {
          NextHeader(data, start, size, i - 1);
          assert TakenAt(data, start + size, size, n - 1, seg, i - 1);
        }
      }
    }
  }

  lemma FirstHeader(data: seq<byte>, start: nat, size: nat, n: nat, seg: Segment)
    requires n > 0 && start + 32 <= |data|
    ensures TakenAt(data, start, size, n, seg, 0) <==> SegmentAt(data, start) == Some(seg)
  {
    assert HeaderAt(start, size, 0) == start;
    hide U32At;
  }

  lemma Shifted(start: nat, size: nat, i: nat)
    ensures HeaderAt(start + size, size, i) == HeaderAt(start, size, i + 1)
  {
  }

  lemma NextHeader(data: seq<byte>, start: nat, size: nat, i: nat)
    requires start + 32 <= |data|
    ensures HeaderAt(start + size, size, i) == HeaderAt(start, size, i + 1)
    ensures InFile(data, start, size, i + 1) <==> InFile(data, start + size, size, i)
  {
    Shifted(start, size, i);
    assert HeaderAt(start, size, 0) == start;
    hide HeaderAt;
    var next := start + size;
    if InFile(data, next, size, i) {
      forall j | 0 <= j <= i + 1 ensures HeaderAt(start, size, j) + 32 <= |data| {
        if j > 0 {
          Shifted(start, size, j - 1);
          assert HeaderAt(next, size, j - 1) + 32 <= |data|;
        }
      }
    }
    if InFile(data, start, size, i + 1) {
      forall j | 0 <= j <= i ensures HeaderAt(next, size, j) + 32 <= |data| {
        Shifted(start, size, j);
        assert HeaderAt(start, size, j + 1) + 32 <= |data|;
      }
    }
  }

  predicate HasElfMagic(data: seq<byte>) {
    |data| >= 4 && data[..4] == [0x7F, 0x45, 0x4C, 0x46]
  }

  method ParseElf(data: seq<byte>) returns (r: Result<seq<Segment>>)
    ensures !HasElfMagic(data) ==> r == Err(NotElf)
    ensures HasElfMagic(data) && |data| < 0x2E ==> r == Err(Truncated)
    ensures HasElfMagic(data) && |data| >= 0x2E ==>
      r == Ok(ByOffset(Segments(data, U32At(data, 0x1C), U16At(data, 0x2A), U16At(data, 0x2C))))
  {
    if !HasElfMagic(data) {
      return Err(NotElf);
    }
    if |data| < 0x2E {
      return Err(Truncated);
    }
    var segs := ReadTable(data, U32At(data, 0x1C), U16At(data, 0x2A), U16At(data, 0x2C));
    r := Ok(ByOffset(segs));
  }

  function HeaderAt(start: nat, size: nat, i: nat): nat { start + i * size }

  method ReadTable(data: seq<byte>, start: nat, size: nat, n: nat) returns (segs: seq<Segment>)
    ensures segs == Segments(data, start, size, n)
  {
    segs := [];
    ghost var all := Segments(data, start, size, n);
    Advance(start, size, 0);
    hide U32At, U16At, SegmentAt, HeaderAt;
    var i := 0;
    while i < n
      invariant 0 <= i <= n
      invariant segs + Segments(data, HeaderAt(start, size, i), size, n - i) == all
    {
      var off := HeaderAt(start, size, i);
      Advance(start, size, i);
      if off + 32 > |data| {
        break;
      }
      match SegmentAt(data, off) {
        case None =>
        case Some(seg) => segs := segs + [seg];
      }
      i := i + 1;
    }
  }

  lemma Advance(start: nat, size: nat, i: nat)
    ensures HeaderAt(start, size, i + 1) == HeaderAt(start, size, i) + size && HeaderAt(start, size, 0) == start
  {
  }

  // ----------------------------------------------------------------- sorting

  // Before the first segment with a larger offset.
  function Insert(segs: seq<Segment>, seg: Segment): seq<Segment> {
    if segs == [] || segs[|segs| - 1].offset <= seg.offset then segs + [seg]
    else Insert(segs[..|segs| - 1], seg) + [segs[|segs| - 1]]
  }

  // A stable sort by file offset.
  function ByOffset(segs: seq<Segment>): seq<Segment> {
    if segs == [] then [] else Insert(ByOffset(segs[..|segs| - 1]), segs[|segs| - 1])
  }

  predicate Sorted(segs: seq<Segment>) {
    forall i, j :: 0 <= i < j < |segs| ==> segs[i].offset <= segs[j].offset
  }

  // The segments at one offset, in order.
  function At(segs: seq<Segment>, offset: nat): seq<Segment> {
    if segs == [] then []
    else At(segs[..|segs| - 1], offset) + if segs[|segs| - 1].offset == offset then [segs[|segs| - 1]] else []
  }

  lemma {:induction false} InsertKeepsAll(segs: seq<Segment>, seg: Segment)
    ensures multiset(Insert(segs, seg)) == multiset(segs) + multiset{seg}
  {
    if segs != [] && seg.offset < segs[|segs| - 1].offset {
      var front, last := segs[..|segs| - 1], segs[|segs| - 1];
      assert segs == front + [last];
      InsertKeepsAll(front, seg);
    }
  }

  lemma {:induction false} InsertSorts(segs: seq<Segment>, seg: Segment)
    requires Sorted(segs)
    ensures Sorted(Insert(segs, seg))
  {
    if segs != [] && seg.offset < segs[|segs| - 1].offset {
      var front, last := segs[..|segs| - 1], segs[|segs| - 1];
      InsertSorts(front, seg);
      InsertKeepsAll(front, seg);
      var s := Insert(front, seg);
      hide Insert;
      forall i | 0 <= i < |s| ensures s[i].offset <= last.offset {
        assert s[i] in multiset(s);
        assert s[i] in front || s[i] == seg;
      }
    }
  }

  lemma {:induction false} InsertKeepsOrder(segs: seq<Segment>, seg: Segment, offset: nat)
    requires Sorted(segs)
    ensures At(Insert(segs, seg), offset) == At(segs, offset) + if seg.offset == offset then [seg] else []
  {
    var r := Insert(segs, seg);
    if segs == [] || segs[|segs| - 1].offset <= seg.offset {
      assert r[..|r| - 1] == segs;
    } else {
      InsertKeepsOrder(segs[..|segs| - 1], seg, offset);
      assert r[..|r| - 1] == Insert(segs[..|segs| - 1], seg);
    }
  }

  // The sort puts the offsets in order, keeps every segment, and keeps the
  // order of segments at the same offset.
  lemma {:induction false} SortIsStable(segs: seq<Segment>, offset: nat)
    ensures Sorted(ByOffset(segs)) && multiset(ByOffset(segs)) == multiset(segs)
    ensures At(ByOffset(segs), offset) == At(segs, offset)
  {
    if segs != [] {
      var front := segs[..|segs| - 1];
      assert segs == front + [segs[|segs| - 1]];
      SortIsStable(front, offset);
      InsertSorts(ByOffset(front), segs[|segs| - 1]);
      InsertKeepsAll(ByOffset(front), segs[|segs| - 1]);
      InsertKeepsOrder(ByOffset(front), segs[|segs| - 1], offset);
      hide Sorted, Insert, At;
    }
  }

  // ----------------------------------------------------------------- packing

  // What the file holds of a segment.
  function Chunk(data: seq<byte>, seg: Segment): (r: seq<byte>)
    ensures |r| <= seg.filesz
  {
    if seg.offset >= |data| then []
    else if seg.offset + seg.filesz <= |data| then data[seg.offset..seg.offset + seg.filesz]
    else data[seg.offset..]
  }

  // The byte flash address a is to hold: from the last segment that has bytes
  // for it, 0xFF if there is none.
  function FlashByte(segs: seq<Segment>, data: seq<byte>, a: nat): byte {
    if segs == [] then 0xFF
    else
      var seg := segs[|segs| - 1];
      if seg.paddr <= a < seg.paddr + |Chunk(data, seg)| then Chunk(data, seg)[a - seg.paddr]
      else FlashByte(segs[..|segs| - 1], data, a)
  }

  function End(seg: Segment): nat { seg.paddr + seg.filesz }

  predicate InFlash(segs: seq<Segment>) {
    forall k :: 0 <= k < |segs| ==> FLASH_BASE <= segs[k].paddr && 0 < segs[k].filesz
  }

  ghost predicate IsMaxEnd(segs: seq<Segment>, e: nat) {
    (exists k :: 0 <= k < |segs| && End(segs[k]) == e) && forall k :: 0 <= k < |segs| ==> End(segs[k]) <= e
  }

  method MaxEnd(segs: seq<Segment>) returns (maxEnd: nat)
    requires segs != [] && InFlash(segs)
    ensures IsMaxEnd(segs, maxEnd)
  {
    maxEnd := 0;
    var k := 0;
    while k < |segs|
      invariant 0 <= k <= |segs| && (k == 0 ==> maxEnd == 0)
      invariant k > 0 ==> exists j :: 0 <= j < k && End(segs[j]) == maxEnd
      invariant forall j :: 0 <= j < k ==> End(segs[j]) <= maxEnd
    {
      var end := End(segs[k]);
      if end > maxEnd {
        maxEnd := end;
      }
      k := k + 1;
    }
  }

  // The image ends with the segment that reaches furthest, and holds the byte
  // the segments give to every address.
  ghost predicate IsImage(segs: seq<Segment>, data: seq<byte>, image: seq<byte>) {
    IsMaxEnd(segs, FLASH_BASE + |image|) && Packed(segs, data, image)
  }

  method PackImage(segs: seq<Segment>, data: seq<byte>) returns (r: Result<seq<byte>>)
    requires InFlash(segs)
    ensures segs == [] ==> r == Err(NoSegments)
    ensures segs != [] ==> r.Ok? && IsImage(segs, data, r.value)
  {
    if segs == [] {
      return Err(NoSegments);
    }
    var maxEnd := MaxEnd(segs);
    assert maxEnd >= FLASH_BASE;
    var image: seq<byte> := seq(maxEnd - FLASH_BASE, _ => 0xFF);
    var k := 0;
    while k < |segs|
      invariant 0 <= k <= |segs| && |image| == maxEnd - FLASH_BASE
      invariant Packed(segs[..k], data, image)
    {
      assert End(segs[k]) <= maxEnd;
      var off := segs[k].paddr - FLASH_BASE;
      var chunk := Chunk(data, segs[k]);
      PackOne(segs[..k], segs[k], data, image);
      hide Packed, Chunk;
      assert segs[..k] + [segs[k]] == segs[..k + 1];
      image := image[..off] + chunk + image[off + |chunk|..];
      k := k + 1;
    }
    assert segs[..k] == segs;
    r := Ok(image);
  }

  predicate Packed(segs: seq<Segment>, data: seq<byte>, image: seq<byte>) {
    forall i :: 0 <= i < |image| ==> image[i] == FlashByte(segs, data, FLASH_BASE + i)
  }

  lemma PackOne(segs: seq<Segment>, seg: Segment, data: seq<byte>, image: seq<byte>)
    requires Packed(segs, data, image) && FLASH_BASE <= seg.paddr && End(seg) <= FLASH_BASE + |image|
    ensures var off, chunk := seg.paddr - FLASH_BASE, Chunk(data, seg);
      Packed(segs + [seg], data, image[..off] + chunk + image[off + |chunk|..])
  {
    assert (segs + [seg])[..|segs|] == segs;
    hide Chunk;
  }

  // Segment k overlaps no later one.
  predicate Uncovered(segs: seq<Segment>, k: nat)
    requires k < |segs|
  {
    forall j :: k < j < |segs| ==> End(segs[j]) <= segs[k].paddr || End(segs[k]) <= segs[j].paddr
  }

  // A segment no later one overlaps is in the image as it is in the file.
  lemma {:induction false} SegmentIsPlaced(segs: seq<Segment>, data: seq<byte>, k: nat, i: nat)
    requires k < |segs| && Uncovered(segs, k) && i < segs[k].filesz && segs[k].offset + i < |data|
    ensures FlashByte(segs, data, segs[k].paddr + i) == data[segs[k].offset + i]
  {
    if k < |segs| - 1 {
      var front := segs[..|segs| - 1];
      assert Uncovered(front, k);
      SegmentIsPlaced(front, data, k, i);
    }
  }

  // Where no segment has bytes the flash is to stay erased.
  lemma {:induction false} RestIsErased(segs: seq<Segment>, data: seq<byte>, a: nat)
    requires forall k :: 0 <= k < |segs| ==> a < segs[k].paddr || segs[k].paddr + |Chunk(data, segs[k])| <= a
    ensures FlashByte(segs, data, a) == 0xFF
  {
    if segs != [] {
      RestIsErased(segs[..|segs| - 1], data, a);
    }
  }

  // ------------------------------------------------------------ the whole way

  lemma ImageInMemory(base: nat, image: seq<byte>, i: nat)
    requires |image| <= SPACE && i < |image|
    ensures Value(Loaded(base, image), (base + i) % SPACE) == Some(image[i])
  {
    var writes := Loaded(base, image);
    forall j | i < j < |writes| ensures writes[j].addr != writes[i].addr {
      Distinct(base, i, j);
    }
    ValueOfDistinct(writes, i);
  }

  lemma Distinct(base: nat, i: nat, j: nat)
    requires i < j < i + SPACE
    ensures (base + i) % SPACE != (base + j) % SPACE
  {
    var p, q := (base + i) / SPACE, (base + j) / SPACE;
    assert (base + j) - (base + i) == SPACE * (q - p) + ((base + j) % SPACE - (base + i) % SPACE);
  }

  // What the flash script makes of a file.
  function Taken(data: seq<byte>): seq<Segment>
    requires |data| >= 0x2E
  {
    ByOffset(Segments(data, U32At(data, 0x1C), U16At(data, 0x2A), U16At(data, 0x2C)))
  }

  lemma TakenAreInFlash(data: seq<byte>)
    requires |data| >= 0x2E
    ensures InFlash(Taken(data))
  {
    var all := Segments(data, U32At(data, 0x1C), U16At(data, 0x2A), U16At(data, 0x2C));
    SortIsStable(all, 0);
    forall k | 0 <= k < |Taken(data)| ensures FLASH_BASE <= Taken(data)[k].paddr && 0 < Taken(data)[k].filesz {
      assert Taken(data)[k] in multiset(all);
    }
  }

  method FlashHex(data: seq<byte>) returns (r: Result<string>)
    ensures r.Ok? <==> HasElfMagic(data) && |data| >= 0x2E && Taken(data) != []
    ensures r.Ok? ==> InFlash(Taken(data))
    ensures r.Ok? ==> Decode(r.value).Some? && HoldsImage(Decode(r.value).value, Taken(data), data)
  {
    var parsed := ParseElf(data);
    if parsed.Err? {
      return Err(parsed.error);
    }
    TakenAreInFlash(data);
    hide Segments, U32At, U16At, InFlash;
    var packed := PackImage(parsed.value, data);
    if packed.Err? {
      return Err(packed.error);
    }
    var text := HexWriter.WriteIhex(FLASH_BASE, packed.value);
    r := Ok(text);
  }

  // The writes load an image of the segments at the flash base.
  ghost predicate HoldsImage(writes: seq<Write>, segs: seq<Segment>, data: seq<byte>) {
    exists image :: IsImage(segs, data, image) && writes == Loaded(FLASH_BASE, image)
  }

  // The loader's memory is the image: what the last segment says, else 0xFF.
  lemma ByteArrives(segs: seq<Segment>, data: seq<byte>, image: seq<byte>, a: nat)
    requires IsImage(segs, data, image) && FLASH_BASE <= a < FLASH_BASE + |image| <= SPACE
    ensures Value(Loaded(FLASH_BASE, image), a) == Some(FlashByte(segs, data, a))
  {
    hide Value, Loaded;
    ImageInMemory(FLASH_BASE, image, a - FLASH_BASE);
    Unwrapped(a);
    hide FlashByte, IsMaxEnd;
    assert image[a - FLASH_BASE] == FlashByte(segs, data, FLASH_BASE + (a - FLASH_BASE));
  }

  lemma Unwrapped(a: nat)
    requires a < SPACE
    ensures a % SPACE == a
  {
  }

  // From the ELF file to the loader's memory: a segment that no later one
  // overlaps arrives at its normalised address, unless the file says that some
  // segment ends beyond the 32-bit space.
  lemma SegmentArrives(writes: seq<Write>, segs: seq<Segment>, data: seq<byte>, k: nat, i: nat)
    requires HoldsImage(writes, segs, data) && InFlash(segs) && EndsBy(segs, SPACE)
    requires k < |segs| && Uncovered(segs, k) && i < segs[k].filesz && segs[k].offset + i < |data|
    ensures Value(writes, segs[k].paddr + i) == Some(data[segs[k].offset + i])
  {
    var image :| IsImage(segs, data, image) && writes == Loaded(FLASH_BASE, image);
    assert FLASH_BASE <= segs[k].paddr && End(segs[k]) <= FLASH_BASE + |image| <= SPACE;
    hide Loaded, Value, IsImage, EndsBy, InFlash, FlashByte;
    SegmentIsPlaced(segs, data, k, i);
    ByteArrives(segs, data, image, segs[k].paddr + i);
  }

  predicate EndsBy(segs: seq<Segment>, e: nat) {
    forall k :: 0 <= k < |segs| ==> End(segs[k]) <= e
  }
}
