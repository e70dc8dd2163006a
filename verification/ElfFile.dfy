// Flashing an ELF file, in terms of what was written into it: the numbers of its
// headers, little-endian, and the bytes of its segments.
module ElfFile {
  import opened HexFormat
  import opened FlashImage

  // The n bytes of a number, least significant first.
  function Bytes(v: nat, n: nat): (r: seq<byte>)
    ensures |r| == n
  {
    if n == 0 then [] else [(v % 256) as byte] + Bytes(v / 256, n - 1)
  }

  // The file holds the n bytes of v at i.
  predicate Holds(data: seq<byte>, i: nat, v: nat, n: nat) {
    i + n <= |data| && data[i..i + n] == Bytes(v, n)
  }

  // A number that was written is read back, wherever it stands.
  lemma U16ReadsBack(data: seq<byte>, i: nat, v: nat)
    requires v < 0x1_0000 && Holds(data, i, v, 2)
    ensures U16At(data, i) == v
  {
    var s := data[i..i + 2];
    assert s == [(v % 256) as byte] + Bytes(v / 256, 1) && Bytes(v / 256, 1) == [(v / 256 % 256) as byte] + Bytes(v / 256 / 256, 0);
    assert data[i] == s[0] && data[i + 1] == s[1];
  }

  lemma U32ReadsBack(data: seq<byte>, i: nat, v: nat)
    requires v < 0x1_0000_0000 && Holds(data, i, v, 4)
    ensures U32At(data, i) == v
  {
    var hi, lo := v / 0x1_0000, v % 0x1_0000;
    FourBytes(v);
    var s := data[i..i + 4];
    assert data[i..i + 2] == s[..2] && data[i + 2..i + 4] == s[2..];
    U16ReadsBack(data, i, lo);
    U16ReadsBack(data, i + 2, hi);
  }

  lemma TwoBytes(v: nat, n: nat)
    ensures Bytes(v, n + 2) == [(v % 256) as byte, (v / 256 % 256) as byte] + Bytes(v / 256 / 256, n)
  {
    assert Bytes(v, n + 2) == [(v % 256) as byte] + Bytes(v / 256, n + 1);
    assert Bytes(v / 256, n + 1) == [(v / 256 % 256) as byte] + Bytes(v / 256 / 256, n);
  }

  lemma Digits256(v: nat)
    ensures v % 0x1_0000 % 256 == v % 256
    ensures v % 0x1_0000 / 256 % 256 == v / 256 % 256
    ensures v / 256 / 256 == v / 0x1_0000
  {
    assert v / 256 / 256 == v / 0x1_0000;
    assert v % 0x1_0000 == 256 * (v / 256 % 256) + v % 256;
  }

  lemma FourBytes(v: nat)
    ensures Bytes(v, 4)[..2] == Bytes(v % 0x1_0000, 2) && Bytes(v, 4)[2..] == Bytes(v / 0x1_0000, 2)
  {
    TwoBytes(v, 2);
    TwoBytes(v % 0x1_0000, 0);
    Digits256(v);
    hide Bytes;
    assert Bytes(v % 0x1_0000 / 256 / 256, 0) == [];
  }

  // A program header, in the order of its words.
  datatype Header = Header(kind: nat, offset: nat, vaddr: nat, paddr: nat, filesz: nat, memsz: nat)

  predicate Fits(h: Header) {
    && h.kind < 0x1_0000_0000 && h.offset < 0x1_0000_0000 && h.vaddr < 0x1_0000_0000
    && h.paddr < 0x1_0000_0000 && h.filesz < 0x1_0000_0000 && h.memsz < 0x1_0000_0000
  }

  predicate HoldsHeader(data: seq<byte>, i: nat, h: Header) {
    && Fits(h) && i + 32 <= |data|
    && Holds(data, i, h.kind, 4) && Holds(data, i + 4, h.offset, 4) && Holds(data, i + 8, h.vaddr, 4)
    && Holds(data, i + 12, h.paddr, 4) && Holds(data, i + 16, h.filesz, 4) && Holds(data, i + 20, h.memsz, 4)
  }

  // Header k stands k entries behind the start of the table.
  ghost predicate HoldsTable(data: seq<byte>, start: nat, size: nat, headers: seq<Header>) {
    forall k :: 0 <= k < |headers| ==> HoldsHeader(data, start + k * size, headers[k])
  }

  // A 32-bit little-endian ELF file with these program headers.
  ghost predicate IsElf(data: seq<byte>, start: nat, size: nat, headers: seq<Header>) {
    && start < 0x1_0000_0000 && size < 0x1_0000 && |headers| < 0x1_0000
    && |data| >= 0x34 && data[0] == 0x7F && data[1] == 0x45 && data[2] == 0x4C && data[3] == 0x46
    && Holds(data, 0x1C, start, 4) && Holds(data, 0x2A, size, 2) && Holds(data, 0x2C, |headers|, 2)
    && HoldsTable(data, start, size, headers)
  }

  // Non-empty, to be loaded, and in one of the two 4 MiB windows of the flash.
  predicate ForFlash(h: Header) {
    h.kind == 1 && h.filesz > 0 && (h.paddr / 0x40_0000 == 0x200 || h.paddr / 0x40_0000 == 0x280)
  }

  // Where in the first window it belongs.
  function Home(h: Header): nat { 0x8000_0000 + h.paddr % 0x40_0000 }

  function SegmentOf(h: Header): Segment { Segment(h.offset, Home(h), h.filesz) }

  lemma WindowsAreThese(paddr: nat)
    ensures IsFlash(paddr) <==> paddr / 0x40_0000 == 0x200 || paddr / 0x40_0000 == 0x280
    ensures IsFlash(paddr) ==> Normalize(paddr) == 0x8000_0000 + paddr % 0x40_0000
  {
  }

  lemma HeaderReadsBack(data: seq<byte>, i: nat, h: Header, seg: Segment)
    requires HoldsHeader(data, i, h)
    ensures IsTaken(data, i, seg) <==> ForFlash(h) && seg == SegmentOf(h)
  {
    U32ReadsBack(data, i, h.kind);
    U32ReadsBack(data, i + 4, h.offset);
    U32ReadsBack(data, i + 12, h.paddr);
    U32ReadsBack(data, i + 16, h.filesz);
    WindowsAreThese(h.paddr);
    hide U32At, IsFlash, Normalize, Holds;
  }

  lemma FileReadsBack(data: seq<byte>, start: nat, size: nat, headers: seq<Header>)
    requires IsElf(data, start, size, headers)
    ensures HasElfMagic(data) && |data| >= 0x2E
    ensures U32At(data, 0x1C) == start && U16At(data, 0x2A) == size && U16At(data, 0x2C) == |headers|
  {
    U32ReadsBack(data, 0x1C, start);
    U16ReadsBack(data, 0x2A, size);
    U16ReadsBack(data, 0x2C, |headers|);
    hide U16At, U32At, Holds, HoldsTable;
    assert data[..4] == [0x7F, 0x45, 0x4C, 0x46];
  }

  // The segments of the file are those its headers describe.
  lemma TakenAreDescribed(data: seq<byte>, start: nat, size: nat, headers: seq<Header>, seg: Segment)
    requires IsElf(data, start, size, headers)
    ensures HasElfMagic(data) && |data| >= 0x2E
    ensures seg in Taken(data) <==> exists k :: 0 <= k < |headers| && ForFlash(headers[k]) && seg == SegmentOf(headers[k])
  {
    FileReadsBack(data, start, size, headers);
    var n := |headers|;
    var all := Segments(data, start, size, n);
    SortIsStable(all, 0);
    assert seg in Taken(data) <==> seg in multiset(ByOffset(all));
    SegmentsExactly(data, start, size, n, seg);
    forall k: nat | k < n ensures TakenAt(data, start, size, n, seg, k) <==> ForFlash(headers[k]) && seg == SegmentOf(headers[k]) {
      TableInFile(data, start, size, headers, k);
      HeaderReadsBack(data, HeaderAt(start, size, k), headers[k], seg);
    }
    hide Segments, ByOffset, TakenAt, ForFlash, SegmentOf, IsElf, U16At, U32At;
  }

  lemma TableInFile(data: seq<byte>, start: nat, size: nat, headers: seq<Header>, k: nat)
    requires HoldsTable(data, start, size, headers) && k < |headers|
    ensures InFile(data, start, size, k) && HoldsHeader(data, HeaderAt(start, size, k), headers[k])
  {
    forall j | 0 <= j <= k ensures HeaderAt(start, size, j) + 32 <= |data| {
      assert HoldsHeader(data, start + j * size, headers[j]);
    }
  }

  // In the flash it overlaps no segment but its own copies.
  predicate Apart(h: Header, g: Header) {
    SegmentOf(g) == SegmentOf(h) || Home(g) + g.filesz <= Home(h) || Home(h) + h.filesz <= Home(g)
  }

  // Nothing is to overlap header k's segment or end beyond the 32-bit space.
  predicate StandsApart(headers: seq<Header>, k: nat)
    requires k < |headers|
  {
    forall j :: 0 <= j < |headers| && ForFlash(headers[j]) ==>
      Apart(headers[k], headers[j]) && Home(headers[j]) + headers[j].filesz <= 0x1_0000_0000
  }

  // The file is accepted exactly if some header is for the flash.
  lemma AcceptedExactly(data: seq<byte>, start: nat, size: nat, headers: seq<Header>)
    requires IsElf(data, start, size, headers)
    ensures HasElfMagic(data) && |data| >= 0x2E
    ensures Taken(data) != [] <==> exists k :: 0 <= k < |headers| && ForFlash(headers[k])
  {
    FileReadsBack(data, start, size, headers);
    hide IsElf, ForFlash, SegmentOf, Taken;
    if Taken(data) != [] {
      TakenAreDescribed(data, start, size, headers, Taken(data)[0]);
    }
    if k :| 0 <= k < |headers| && ForFlash(headers[k]) {
      TakenAreDescribed(data, start, size, headers, SegmentOf(headers[k]));
    }
  }

  // From the numbers and bytes written into the file to the loader's memory:
  // each byte of a flash segment that overlaps no other arrives at its home.
  lemma WrittenArrives(data: seq<byte>, start: nat, size: nat, headers: seq<Header>, writes: seq<Write>, k: nat, i: nat)
    requires IsElf(data, start, size, headers) && |data| >= 0x2E && HoldsImage(writes, Taken(data), data)
    requires k < |headers| && ForFlash(headers[k])
    requires StandsApart(headers, k)
    requires i < headers[k].filesz && headers[k].offset + i < |data|
    ensures Value(writes, Home(headers[k]) + i) == Some(data[headers[k].offset + i])
  {
    hide IsElf, Taken, HoldsImage, InFlash, ForFlash, StandsApart, Value, ApartFrom;
    TakenAreApart(data, start, size, headers, k);
    TakenAreInFlash(data);
    LastCopyArrives(writes, Taken(data), data, SegmentOf(headers[k]), i);
  }

  lemma LastCopyArrives(writes: seq<Write>, segs: seq<Segment>, data: seq<byte>, seg: Segment, i: nat)
    requires HoldsImage(writes, segs, data) && InFlash(segs) && seg in segs
    requires forall other :: other in segs ==> ApartFrom(other, seg)
    requires i < seg.filesz && seg.offset + i < |data|
    ensures Value(writes, seg.paddr + i) == Some(data[seg.offset + i])
  {
    var m := LastOf(segs, seg);
    hide HoldsImage, InFlash, Value;
    assert forall j :: 0 <= j < |segs| ==> ApartFrom(segs[j], seg);
    SegmentArrives(writes, segs, data, m, i);
  }

  predicate ApartFrom(other: Segment, seg: Segment) {
    End(other) <= SPACE && (other == seg || End(other) <= seg.paddr || End(seg) <= other.paddr)
  }

  lemma TakenAreApart(data: seq<byte>, start: nat, size: nat, headers: seq<Header>, k: nat)
    requires IsElf(data, start, size, headers) && |data| >= 0x2E && k < |headers| && ForFlash(headers[k])
    requires StandsApart(headers, k)
    ensures SegmentOf(headers[k]) in Taken(data)
    ensures forall seg :: seg in Taken(data) ==> ApartFrom(seg, SegmentOf(headers[k]))
  {
    TakenAreDescribed(data, start, size, headers, SegmentOf(headers[k]));
    forall seg | seg in Taken(data) ensures ApartFrom(seg, SegmentOf(headers[k])) {
      TakenAreDescribed(data, start, size, headers, seg);
      hide IsElf, Taken, ForFlash;
      var j :| 0 <= j < |headers| && ForFlash(headers[j]) && seg == SegmentOf(headers[j]);
      assert Apart(headers[k], headers[j]);
    }
    hide IsElf, Taken, ForFlash, Apart;
  }

  lemma LastOf(segs: seq<Segment>, seg: Segment) returns (m: nat)
    requires seg in segs
    ensures m < |segs| && segs[m] == seg && forall j :: m < j < |segs| ==> segs[j] != seg
  {
    m := |segs| - 1;
    while segs[m] != seg
      invariant m < |segs| && forall j :: m < j < |segs| ==> segs[j] != seg
      decreases m
    {
      m := m - 1;
    }
  }

  // An address of the image that no flash segment covers is left erased.
  lemma UncoveredIsErased(data: seq<byte>, start: nat, size: nat, headers: seq<Header>, a: nat)
    requires IsElf(data, start, size, headers) && |data| >= 0x2E
    requires forall k :: 0 <= k < |headers| && ForFlash(headers[k]) ==>
      a < Home(headers[k]) || Home(headers[k]) + headers[k].filesz <= a
    ensures FlashByte(Taken(data), data, a) == 0xFF
  {
    var segs := Taken(data);
    forall j | 0 <= j < |segs| ensures a < segs[j].paddr || segs[j].paddr + |Chunk(data, segs[j])| <= a {
      TakenAreDescribed(data, start, size, headers, segs[j]);
    }
    RestIsErased(segs, data, a);
  }
}
