/**
  PE32+ images put together header by header, and what scripts/pe-set-debug.c
  makes of them, in terms of the headers' own fields.
 */
module PeLayout {
  import opened Bytes
  import opened Outcomes
  import opened PeStamp
  import BuildId

  // --- Section tables -------------------------------------------------------------

  /** A section header; `more` is what follows PointerToRawData. */
  datatype Record =
    Record(name: bytes, virtualSize: nat, virtualAddress: nat, rawSize: nat, rawPointer: nat, more: bytes)

  predicate RecordOk(r: Record)
  {
    && |r.name| == 8 && |r.more| == 16 && r.virtualSize < 0x1_0000_0000 && r.virtualAddress < 0x1_0000_0000
    && r.rawSize < 0x1_0000_0000 && r.rawPointer < 0x1_0000_0000
  }

  function RecordBytes(r: Record): bytes
  {
    r.name + ToLE(r.virtualSize, 4) + ToLE(r.virtualAddress, 4) + ToLE(r.rawSize, 4) + ToLE(r.rawPointer, 4) + r.more
  }

  function TableBytes(rs: seq<Record>): bytes
  {
    if rs == [] then [] else RecordBytes(rs[0]) + TableBytes(rs[1..])
  }

  ghost predicate RecordsOk(rs: seq<Record>)
  {
    forall k :: 0 <= k < |rs| ==> RecordOk(rs[k])
  }

  lemma {:induction false} TableLength(rs: seq<Record>)
    requires RecordsOk(rs)
    ensures |TableBytes(rs)| == 40 * |rs|
  {
    if rs != [] {
      assert RecordOk(rs[0]);
      TableLength(rs[1..]);
    }
  }

  lemma RecordSlices(name: bytes, p: bytes, q: bytes, r: bytes, s: bytes, more: bytes)
    requires |name| == 8 && |p| == |q| == |r| == |s| == 4 && |more| == 16
    ensures var x := name + p + q + r + s + more;
      |x| == 40 && x[0..8] == name && x[8..12] == p && x[12..16] == q && x[16..20] == r && x[20..24] == s
  {
  }

  /** The fields of a section header where they are. */
  lemma RecordReads(d: bytes, at: nat, r: Record)
    requires RecordOk(r) && At(d, at, RecordBytes(r))
    ensures at + 40 <= |d| && d[at..at + 8] == r.name && Load(d, at + 12, 4) == r.virtualAddress
    ensures Load(d, at + 16, 4) == r.rawSize && Load(d, at + 20, 4) == r.rawPointer
  {
    var x := RecordBytes(r);
    WordSizes();
    RecordSlices(r.name, ToLE(r.virtualSize, 4), ToLE(r.virtualAddress, 4), ToLE(r.rawSize, 4), ToLE(r.rawPointer, 4), r.more);
    SliceShift(d, at, x, 0, 8);
    SliceShift(d, at, x, 12, 16);
    SliceShift(d, at, x, 16, 20);
    SliceShift(d, at, x, 20, 24);
    StoreThenLoad(r.virtualAddress, 4);
    StoreThenLoad(r.rawSize, 4);
    StoreThenLoad(r.rawPointer, 4);
  }

  lemma FirstRecord(d: bytes, at: nat, rs: seq<Record>)
    requires rs != [] && RecordsOk(rs) && At(d, at, TableBytes(rs))
    ensures RecordOk(rs[0]) && At(d, at, RecordBytes(rs[0])) && At(d, at + 40, TableBytes(rs[1..]))
  {
    var x, first, rest := TableBytes(rs), RecordBytes(rs[0]), TableBytes(rs[1..]);
    assert RecordOk(rs[0]) && |first| == 40;
    SliceShift(d, at, x, 0, 40);
    SliceShift(d, at, x, 40, |x|);
    assert x[0..40] == first && x[40..] == rest;
  }

  /** ".dbgdir", padded with a NUL to eight bytes. */
  const DBGDIR: bytes := [0x2E, 0x64, 0x62, 0x67, 0x64, 0x69, 0x72, 0x00]

  /** The record at `k` is the first of that name. */
  ghost predicate IsFirstDbgdir(rs: seq<Record>, k: nat)
  {
    k < |rs| && rs[k].name == DBGDIR && forall j :: 0 <= j < k ==> rs[j].name != DBGDIR
  }

  /** The search gives the fields of the first record with the name, wherever the table lies. */
  lemma {:induction false} SearchFindsRecord(d: bytes, table: nat, rs: seq<Record>, count: nat, i: nat, k: nat)
    requires i <= count == i + |rs| && RecordsOk(rs) && At(d, table + 40 * i, TableBytes(rs)) && table + 40 * count <= |d|
    requires IsFirstDbgdir(rs, k)
    ensures FindSection(d, table, count, i) == Some(Section(rs[k].virtualAddress, rs[k].rawSize, rs[k].rawPointer))
    decreases |rs|
  {
    FirstRecord(d, table + 40 * i, rs);
    RecordReads(d, table + 40 * i, rs[0]);
    if k > 0 {
      assert rs[0].name != DBGDIR;
      SearchFindsRecord(d, table, rs[1..], count, i + 1, k - 1);
    }
  }

  /** And none exactly when there is none. */
  lemma {:induction false} SearchFindsNone(d: bytes, table: nat, rs: seq<Record>, count: nat, i: nat)
    requires i <= count == i + |rs| && RecordsOk(rs) && At(d, table + 40 * i, TableBytes(rs)) && table + 40 * count <= |d|
    ensures FindSection(d, table, count, i) == None <==> forall k :: 0 <= k < |rs| ==> rs[k].name != DBGDIR
    decreases |rs|
  {
    if rs != [] {
      FirstRecord(d, table + 40 * i, rs);
      RecordReads(d, table + 40 * i, rs[0]);
      SearchFindsNone(d, table, rs[1..], count, i + 1);
      assert rs == [rs[0]] + rs[1..];
    }
  }

  // --- Images -----------------------------------------------------------------------

  /** A PE32+ image: what the stamper reads, and the bytes in between. */
  datatype Image = Image(
    dos: bytes, stub: bytes, machine: bytes, stamps: bytes, traits: bytes,
    lead: bytes, flags: nat, mid: bytes, directories: nat, others: bytes, debug: bytes, more: bytes,
    sections: seq<Record>, body: bytes)

  function DosHeader(im: Image): bytes
  {
    [0x4D, 0x5A] + im.dos + ToLE(64 + |im.stub|, 4)
  }

  /** "PE", two NULs, and the COFF header. */
  function PeHeader(im: Image): bytes
  {
    [0x50, 0x45, 0, 0] + im.machine + ToLE(|im.sections|, 2) + im.stamps + ToLE(168 + |im.more|, 2) + im.traits
  }

  function OptionalHeader(im: Image): bytes
  {
    [0x0B, 0x02] + im.lead + ToLE(im.flags, 2) + im.mid + ToLE(im.directories, 4) + im.others + im.debug + im.more
  }

  function ImageBytes(im: Image): bytes
  {
    DosHeader(im) + im.stub + PeHeader(im) + OptionalHeader(im) + TableBytes(im.sections) + im.body
  }

  ghost predicate ImageOk(im: Image)
  {
    && |im.dos| == 58 && |im.machine| == 2 && |im.stamps| == 12 && |im.traits| == 2 && |im.lead| == 68 && |im.mid| == 36
    && |im.others| == 48 && |im.debug| == 8 && im.flags < 0x1_0000 && im.directories < 0x1_0000_0000
    && |im.sections| < 0x1_0000 && 168 + |im.more| < 0x1_0000 && RecordsOk(im.sections)
    && |ImageBytes(im)| < 0x1_0000_0000
  }

  function PeOffset(im: Image): nat
  {
    64 + |im.stub|
  }

  function TableOffset(im: Image): nat
  {
    64 + |im.stub| + 24 + 168 + |im.more|
  }

  lemma DosSlices(dos: bytes, pe: bytes)
    requires |dos| == 58 && |pe| == 4
    ensures var x := [0x4D, 0x5A] + dos + pe; |x| == 64 && x[0..2] == [0x4D, 0x5A] && x[60..64] == pe
  {
  }

  lemma CoffSlices(machine: bytes, count: bytes, stamps: bytes, size: bytes, traits: bytes)
    requires |machine| == |count| == |size| == |traits| == 2 && |stamps| == 12
    ensures var x := [0x50, 0x45, 0, 0] + machine + count + stamps + size + traits;
      |x| == 24 && x[0..4] == [0x50, 0x45, 0, 0] && x[6..8] == count && x[20..22] == size
  {
  }

  lemma OptionalSlices(lead: bytes, flags: bytes, mid: bytes, dirs: bytes, others: bytes, debug: bytes, more: bytes)
    requires |lead| == 68 && |flags| == 2 && |mid| == 36 && |dirs| == 4 && |others| == 48 && |debug| == 8
    ensures var x := [0x0B, 0x02] + lead + flags + mid + dirs + others + debug + more;
      && |x| == 168 + |more| && x[0..2] == [0x0B, 0x02] && x[70..72] == flags && x[108..112] == dirs
      && x[160..168] == debug
  {
  }

  /** The headers lie one after another. */
  lemma HeadersLie(dos: bytes, stub: bytes, pe: bytes, opt: bytes, table: bytes, body: bytes)
    ensures var d, a, b, c := dos + stub + pe + opt + table + body, |dos| + |stub|, |dos| + |stub| + |pe|, |dos| + |stub| + |pe| + |opt|;
      At(d, 0, dos) && At(d, a, pe) && At(d, b, opt) && At(d, c, table) && |d| >= c + |table|
  {
  }

  lemma Magics()
    ensures FromLE([0x4D, 0x5A]) == 0x5A4D && FromLE([0x50, 0x45, 0, 0]) == 0x4550 && FromLE([0x0B, 0x02]) == 0x20B
  {
    assert [0x4D, 0x5A] == ToLE(0x5A4D, 2) by { assert ToLE(0x5A4D, 2) == [0x4D] + ([0x5A] + []); }
    assert [0x0B, 0x02] == ToLE(0x20B, 2) by { assert ToLE(0x20B, 2) == [0x0B] + ([0x02] + []); }
    assert [0x50, 0x45, 0, 0] == ToLE(0x4550, 4) by { assert ToLE(0x4550, 4) == [0x50] + ([0x45] + ([0] + ([0] + []))); }
    WordSizes();
    StoreThenLoad(0x5A4D, 2);
    StoreThenLoad(0x20B, 2);
    StoreThenLoad(0x4550, 4);
  }

  lemma SizesOf(im: Image)
    requires ImageOk(im)
    ensures |DosHeader(im)| == 64 && |PeHeader(im)| == 24 && |OptionalHeader(im)| == 168 + |im.more|
    ensures |TableBytes(im.sections)| == 40 * |im.sections|
  {
    TableLength(im.sections);
  }

  /** Where the headers of an image lie. */
  lemma ImageLies(im: Image, d: bytes)
    requires ImageOk(im) && d == ImageBytes(im)
    ensures At(d, 0, DosHeader(im)) && At(d, PeOffset(im), PeHeader(im)) && At(d, PeOffset(im) + 24, OptionalHeader(im))
    ensures At(d, TableOffset(im), TableBytes(im.sections)) && TableOffset(im) + 40 * |im.sections| <= |d|
  {
    SizesOf(im);
    HeadersLie(DosHeader(im), im.stub, PeHeader(im), OptionalHeader(im), TableBytes(im.sections), im.body);
  }

  lemma DosReads(d: bytes, im: Image)
    requires ImageOk(im) && At(d, 0, DosHeader(im)) && PeOffset(im) < 0x1_0000_0000
    ensures |d| >= 64 && Load(d, 0, 2) == 0x5A4D && Load(d, 60, 4) == PeOffset(im)
  {
    var x := DosHeader(im);
    DosSlices(im.dos, ToLE(PeOffset(im), 4));
    SliceShift(d, 0, x, 0, 2);
    SliceShift(d, 0, x, 60, 64);
    Magics();
    WordSizes();
    StoreThenLoad(PeOffset(im), 4);
  }

  lemma CoffReads(d: bytes, pe: nat, im: Image)
    requires ImageOk(im) && At(d, pe, PeHeader(im))
    ensures pe + 24 <= |d| && Load(d, pe, 4) == 0x4550 && Load(d, pe + 6, 2) == |im.sections|
    ensures Load(d, pe + 20, 2) == 168 + |im.more|
  {
    var x := PeHeader(im);
    CoffSlices(im.machine, ToLE(|im.sections|, 2), im.stamps, ToLE(168 + |im.more|, 2), im.traits);
    SliceShift(d, pe, x, 0, 4);
    SliceShift(d, pe, x, 6, 8);
    SliceShift(d, pe, x, 20, 22);
    Magics();
    WordSizes();
    StoreThenLoad(|im.sections|, 2);
    StoreThenLoad(168 + |im.more|, 2);
  }

  lemma OptionalReads(d: bytes, opt: nat, im: Image)
    requires ImageOk(im) && At(d, opt, OptionalHeader(im))
    ensures opt + 168 <= |d| && Load(d, opt, 2) == 0x20B && Load(d, opt + 70, 2) == im.flags
    ensures Load(d, opt + 108, 4) == im.directories
  {
    var x := OptionalHeader(im);
    OptionalSlices(im.lead, ToLE(im.flags, 2), im.mid, ToLE(im.directories, 4), im.others, im.debug, im.more);
    SliceShift(d, opt, x, 0, 2);
    SliceShift(d, opt, x, 70, 72);
    SliceShift(d, opt, x, 108, 112);
    Magics();
    WordSizes();
    StoreThenLoad(im.flags, 2);
    StoreThenLoad(im.directories, 4);
  }

  lemma ParsesFrom(d: bytes, pe: nat, size: nat, count: nat)
    requires pe + 192 <= |d| < 0x1_0000_0000 && Load(d, 0, 2) == 0x5A4D && Load(d, 60, 4) == pe && Load(d, pe, 4) == 0x4550
    requires Load(d, pe + 24, 2) == 0x20B && Load(d, pe + 20, 2) == size && Load(d, pe + 6, 2) == count
    ensures ParseHeaders(d) == Ok(Headers(pe, pe + 24, pe + 24 + size, count))
  {
  }

  function HeadersOf(im: Image): Headers
  {
    Headers(64 + |im.stub|, 64 + |im.stub| + 24, 64 + |im.stub| + 24 + 168 + |im.more|, |im.sections|)
  }

  /** The headers of every image are found where they are. */
  lemma ImageParses(im: Image, d: bytes)
    requires ImageOk(im) && d == ImageBytes(im)
    ensures ParseHeaders(d) == Ok(HeadersOf(im))
  {
    ImageLies(im, d);
    DosReads(d, im);
    CoffReads(d, PeOffset(im), im);
    OptionalReads(d, PeOffset(im) + 24, im);
    ParsesFrom(d, PeOffset(im), 168 + |im.more|, |im.sections|);
  }

  // --- Stamping -----------------------------------------------------------------------

  /** Setting the flags touches nothing behind the optional header's fixed part. */
  lemma MarkedHolds(d: bytes, opt: nat, at: nat, x: bytes)
    requires opt + 168 <= |d| && At(d, at, x) && opt + 72 <= at
    ensures At(SetNx(d, opt), at, x)
  {
    OtherRegion(d, opt + 70, ToLE(WithNxBit(Load(d, opt + 70, 2)), 2), at, at + |x|);
  }

  lemma MarkedLoads(d: bytes, opt: nat, at: nat)
    requires opt + 168 <= |d| && opt + 72 <= at && at + 4 <= |d|
    ensures Load(SetNx(d, opt), at, 4) == Load(d, at, 4)
  {
    OtherRegion(d, opt + 70, ToLE(WithNxBit(Load(d, opt + 70, 2)), 2), at, at + 4);
  }

  /** A file with these headers, flags and section headers; the layout of an image, as the stamper meets it. */
  ghost predicate Describes(d: bytes, h: Headers, flags: nat, directories: nat, rs: seq<Record>)
  {
    && ParseHeaders(d) == Ok(h) && 64 <= h.pe && h.opt == h.pe + 24 && h.opt + 168 <= h.table && |rs| == h.count
    && h.table + 40 * h.count <= |d| && RecordsOk(rs) && At(d, h.table, TableBytes(rs))
    && Load(d, h.opt + 70, 2) == flags && Load(d, h.opt + 108, 4) == directories
  }

  lemma ImageDescribes(im: Image, d: bytes)
    requires ImageOk(im) && d == ImageBytes(im)
    ensures Describes(d, HeadersOf(im), im.flags, im.directories, im.sections)
  {
    ImageParses(im, d);
    ImageLies(im, d);
    OptionalReads(d, PeOffset(im) + 24, im);
  }

  /** What the search needs is still there once the flags are set. */
  lemma MarkedDescribes(d: bytes, h: Headers, flags: nat, directories: nat, rs: seq<Record>)
    requires Describes(d, h, flags, directories, rs)
    ensures Load(SetNx(d, h.opt), h.opt + 108, 4) == directories && At(SetNx(d, h.opt), h.table, TableBytes(rs))
  {
    MarkedLoads(d, h.opt, h.opt + 108);
    MarkedHolds(d, h.opt, h.table, TableBytes(rs));
  }

  lemma NotLocated(d: bytes, h: Headers, directories: nat, rs: seq<Record>)
    requires h.opt + 168 <= |d| && h.table + 40 * h.count <= |d| && |rs| == h.count && RecordsOk(rs)
    requires Load(d, h.opt + 108, 4) == directories && At(d, h.table, TableBytes(rs))
    requires forall k :: 0 <= k < |rs| ==> rs[k].name != DBGDIR
    ensures LocateSection(d, h) == Err(if directories <= 6 then TooFewDirectories else NoDebugSection)
  {
    SearchFindsNone(d, h.table, rs, h.count, 0);
  }

  function SectionOf(r: Record): Section
  {
    Section(r.virtualAddress, r.rawSize, r.rawPointer)
  }

  lemma LocateFrom(d: bytes, h: Headers)
    requires h.opt + 168 <= |d| && h.table + 40 * h.count <= |d|
    ensures LocateSection(d, h) ==
      if Load(d, h.opt + 108, 4) <= 6 then Err(TooFewDirectories) else Accept(FindSection(d, h.table, h.count, 0), |d|)
  {
  }

  lemma FindsRecord(d: bytes, h: Headers, rs: seq<Record>, k: nat)
    requires h.table + 40 * h.count <= |d| && |rs| == h.count && RecordsOk(rs) && At(d, h.table, TableBytes(rs)) && IsFirstDbgdir(rs, k)
    ensures FindSection(d, h.table, h.count, 0) == Some(SectionOf(rs[k]))
  {
    SearchFindsRecord(d, h.table, rs, h.count, 0, k);
  }

  lemma Located(d: bytes, h: Headers, directories: nat, rs: seq<Record>, k: nat)
    requires h.opt + 168 <= |d| && h.table + 40 * h.count <= |d| && |rs| == h.count && RecordsOk(rs)
    requires Load(d, h.opt + 108, 4) == directories && At(d, h.table, TableBytes(rs)) && IsFirstDbgdir(rs, k)
    ensures LocateSection(d, h)
      == if directories <= 6 then Err(TooFewDirectories)
         else if rs[k].rawSize < 53 then Err(SectionTooSmall)
         else if rs[k].rawPointer + rs[k].rawSize > |d| then Err(OutOfBounds)
         else Ok(SectionOf(rs[k]))
  {
    FindsRecord(d, h, rs, k);
    LocateFrom(d, h);
  }

  /** The section's contents lie behind the headers, as linkers put them. */
  ghost predicate ContentsBehind(d: bytes, h: Headers, r: Record)
  {
    r.rawSize >= 53 && h.table + 40 * h.count <= r.rawPointer && r.rawPointer + r.rawSize <= |d|
  }

  /** What the two checks of the contents see. */
  lemma ContentsSeen(d: bytes, opt: nat, s: Section)
    requires opt + 168 <= s.off && s.raw >= 53 && s.off + s.raw <= |d|
    ensures var d2 := SetDirectory(SetNx(d, opt), opt, s.rva);
      && Load(d2, s.off + 12, 4) == Load(d, s.off + 12, 4)
      && Load(SetEntry(d2, s), s.off + 28, 4) == Load(d, s.off + 28, 4)
  {
    var d1 := SetNx(d, opt);
    var d2 := SetDirectory(d1, opt, s.rva);
    MarkedLoads(d, opt, s.off + 12);
    MarkedLoads(d, opt, s.off + 28);
    DirectoryKeeps(d1, opt, s.rva, s.off + 12, s.off + 16);
    DirectoryKeeps(d1, opt, s.rva, s.off + 28, s.off + 32);
    EntryKeeps(d2, s, s.off + 28, s.off + 32);
  }

  lemma PatchVerdict(d: bytes, opt: nat, s: Section)
    requires opt + 168 <= s.off && s.raw >= 53 && s.off + s.raw <= |d|
    ensures var d1 := SetNx(d, opt);
      PatchEntry(d1, opt, s) ==
        if Load(d, s.off + 12, 4) != 2 then Err(NotCodeView)
        else if Load(d, s.off + 28, 4) != 0x5344_5352 then Err(BadRsds)
        else Ok(SetEntry(SetDirectory(d1, opt, s.rva), s))
  {
    ContentsSeen(d, opt, s);
  }

  lemma PatchStopsFirst(d: bytes, opt: nat, s: Section)
    requires opt + 168 <= s.off && s.raw >= 53 && s.off + s.raw <= |d| && Load(d, s.off + 12, 4) != 2
    ensures PatchEntry(SetNx(d, opt), opt, s) == Err(NotCodeView)
  {
    PatchVerdict(d, opt, s);
  }

  lemma PatchStops(d: bytes, opt: nat, s: Section)
    requires opt + 168 <= s.off && s.raw >= 53 && s.off + s.raw <= |d|
    requires Load(d, s.off + 12, 4) == 2 && Load(d, s.off + 28, 4) != 0x5344_5352
    ensures PatchEntry(SetNx(d, opt), opt, s) == Err(BadRsds)
  {
    PatchVerdict(d, opt, s);
  }

  lemma PatchGoesOn(d: bytes, opt: nat, s: Section)
    requires opt + 168 <= s.off && s.raw >= 53 && s.off + s.raw <= |d|
    requires Load(d, s.off + 12, 4) == 2 && Load(d, s.off + 28, 4) == 0x5344_5352
    ensures PatchEntry(SetNx(d, opt), opt, s) == Ok(SetEntry(SetDirectory(SetNx(d, opt), opt, s.rva), s))
  {
    PatchVerdict(d, opt, s);
  }

  lemma StampStops(d: bytes, name: bytes, h: Headers, e: Error)
    requires ParseHeaders(d) == Ok(h) && LocateSection(SetNx(d, h.opt), h) == Err(e)
    ensures Stamp(d, name) == Err(e)
  {
  }

  lemma StampStopsLater(d: bytes, name: bytes, h: Headers, s: Section, e: Error)
    requires ParseHeaders(d) == Ok(h) && LocateSection(SetNx(d, h.opt), h) == Ok(s) && PatchEntry(SetNx(d, h.opt), h.opt, s) == Err(e)
    ensures Stamp(d, name) == Err(e)
  {
  }

  lemma StampEnds(d: bytes, name: bytes, h: Headers, s: Section, d3: bytes)
    requires ParseHeaders(d) == Ok(h) && LocateSection(SetNx(d, h.opt), h) == Ok(s) && PatchEntry(SetNx(d, h.opt), h.opt, s) == Ok(d3)
    ensures Stamp(d, name) == Ok(Seal(d3, s, name))
  {
  }

  /** A file without a .dbgdir section header is refused. */
  lemma UnnamedIsRefused(d: bytes, name: bytes, h: Headers, flags: nat, directories: nat, rs: seq<Record>)
    requires Describes(d, h, flags, directories, rs) && forall k :: 0 <= k < |rs| ==> rs[k].name != DBGDIR
    ensures Stamp(d, name) == Err(if directories <= 6 then TooFewDirectories else NoDebugSection)
  {
    MarkedDescribes(d, h, flags, directories, rs);
    NotLocated(SetNx(d, h.opt), h, directories, rs);
    StampStops(d, name, h, if directories <= 6 then TooFewDirectories else NoDebugSection);
  }

  /** And so is one with too few data directories or too small a section. */
  lemma SmallIsRefused(d: bytes, name: bytes, h: Headers, flags: nat, directories: nat, rs: seq<Record>, k: nat)
    requires Describes(d, h, flags, directories, rs) && IsFirstDbgdir(rs, k) && (directories <= 6 || rs[k].rawSize < 53)
    ensures Stamp(d, name) == Err(if directories <= 6 then TooFewDirectories else SectionTooSmall)
  {
    MarkedDescribes(d, h, flags, directories, rs);
    Located(SetNx(d, h.opt), h, directories, rs, k);
    StampStops(d, name, h, if directories <= 6 then TooFewDirectories else SectionTooSmall);
  }

  lemma FileIsLocated(d: bytes, h: Headers, flags: nat, directories: nat, rs: seq<Record>, k: nat)
    requires Describes(d, h, flags, directories, rs) && IsFirstDbgdir(rs, k) && directories > 6 && ContentsBehind(d, h, rs[k])
    ensures ParseHeaders(d) == Ok(h) && LocateSection(SetNx(d, h.opt), h) == Ok(SectionOf(rs[k]))
  {
    MarkedDescribes(d, h, flags, directories, rs);
    Located(SetNx(d, h.opt), h, directories, rs, k);
  }

  /** A section that does not hold a CodeView entry is refused ... */
  lemma NoEntryIsRefused(d: bytes, name: bytes, h: Headers, r: Record)
    requires ParseHeaders(d) == Ok(h) && LocateSection(SetNx(d, h.opt), h) == Ok(SectionOf(r)) && ContentsBehind(d, h, r)
    requires h.opt + 168 <= h.table && Load(d, r.rawPointer + 12, 4) != 2
    ensures Stamp(d, name) == Err(NotCodeView)
  {
    PatchStopsFirst(d, h.opt, SectionOf(r));
    StampStopsLater(d, name, h, SectionOf(r), NotCodeView);
  }

  /** ... or, behind it, no RSDS record. */
  lemma NoRsdsIsRefused(d: bytes, name: bytes, h: Headers, r: Record)
    requires ParseHeaders(d) == Ok(h) && LocateSection(SetNx(d, h.opt), h) == Ok(SectionOf(r)) && ContentsBehind(d, h, r)
    requires h.opt + 168 <= h.table && Load(d, r.rawPointer + 12, 4) == 2 && Load(d, r.rawPointer + 28, 4) != 0x5344_5352
    ensures Stamp(d, name) == Err(BadRsds)
  {
    PatchStops(d, h.opt, SectionOf(r));
    StampStopsLater(d, name, h, SectionOf(r), BadRsds);
  }

  /** The file as it is written back. */
  function Stamped(d: bytes, name: bytes, opt: nat, r: Record): bytes
    requires opt + 168 <= |d| && r.rawSize >= 53 && r.rawPointer + r.rawSize <= |d|
  {
    Seal(SetEntry(SetDirectory(SetNx(d, opt), opt, r.virtualAddress), SectionOf(r)), SectionOf(r), name)
  }

  /** Any other file is stamped. */
  lemma FileIsStamped(d: bytes, name: bytes, h: Headers, r: Record)
    requires ParseHeaders(d) == Ok(h) && LocateSection(SetNx(d, h.opt), h) == Ok(SectionOf(r)) && ContentsBehind(d, h, r)
    requires h.opt + 168 <= h.table && Load(d, r.rawPointer + 12, 4) == 2 && Load(d, r.rawPointer + 28, 4) == 0x5344_5352
    ensures Stamp(d, name) == Ok(Stamped(d, name, h.opt, r))
  {
    PatchGoesOn(d, h.opt, SectionOf(r));
    StampEnds(d, name, h, SectionOf(r), SetEntry(SetDirectory(SetNx(d, h.opt), h.opt, r.virtualAddress), SectionOf(r)));
  }

  /** Bit 8 of the flags, NX_COMPAT, is set and no other bit changed. */
  ghost predicate NxSet(before: nat, after: nat)
  {
    after == if (before / 256) % 2 == 1 then before else before + 256
  }

  /** What a stamped file holds in its headers ... */
  ghost predicate HeadersShow(out: bytes, opt: nat, flags: nat, r: Record)
  {
    && opt + 168 <= |out| && NxSet(flags, Load(out, opt + 70, 2))
    && Load(out, opt + 160, 4) == r.virtualAddress && Load(out, opt + 164, 4) == 28
  }

  /** ... and in its section: where the RSDS record is, the id of the whole, and the name cut to leave a NUL. */
  ghost predicate SectionShows(out: bytes, r: Record, name: bytes)
  {
    var off := r.rawPointer;
    && off + 53 <= off + r.rawSize <= |out|
    && Load(out, off + 20, 4) == (r.virtualAddress + 28) % 0x1_0000_0000
    && Load(out, off + 24, 4) == (off + 28) % 0x1_0000_0000
    && out[off + 32..off + 48] == BuildId.Id(out, off + 32)
    && (forall k :: 0 <= k < r.rawSize - 52 ==>
          out[off + 52 + k] == if k < |name| && k < r.rawSize - 53 then name[k] else 0)
  }

  /** The bytes of a file that stamping may change. */
  ghost predicate Overwritten(opt: nat, r: Record, k: int)
  {
    var off := r.rawPointer;
    || opt + 70 <= k < opt + 72 || opt + 160 <= k < opt + 168 || off + 20 <= k < off + 28
    || off + 32 <= k < off + 48 || off + 52 <= k < off + r.rawSize
  }

  lemma HeaderWords(out: bytes, h: Headers, s: Section)
    requires HeadersStamped(out, h, s) && s.rva < 0x1_0000_0000
    ensures Load(out, h.opt + 160, 4) == s.rva && Load(out, h.opt + 164, 4) == 28
  {
    WordSizes();
    StoreThenLoad(s.rva, 4);
    StoreThenLoad(28, 4);
  }

  lemma EntryWords(out: bytes, s: Section)
    requires EntryStamped(out, s)
    ensures Load(out, s.off + 20, 4) == (s.rva + 28) % 0x1_0000_0000 && Load(out, s.off + 24, 4) == (s.off + 28) % 0x1_0000_0000
  {
    WordSizes();
    StoreThenLoad((s.rva + 28) % 0x1_0000_0000, 4);
    StoreThenLoad((s.off + 28) % 0x1_0000_0000, 4);
  }

  lemma StampedName(out: bytes, s: Section, name: bytes)
    requires Sealed(out, s, name)
    ensures forall k :: 0 <= k < s.raw - 52 ==>
      out[s.off + 52 + k] == if k < |name| && k < s.raw - 53 then name[k] else 0
  {
    var field := NameBytes(name, s.raw - 52);
    forall k | 0 <= k < s.raw - 52
      ensures out[s.off + 52 + k] == if k < |name| && k < s.raw - 53 then name[k] else 0
    {
      assert out[s.off + 52..s.off + s.raw][k] == out[s.off + 52 + k];
      assert field[k] == if k < |name| && k < s.raw - 53 then name[k] else 0;
    }
  }

  lemma FlagsRead(d: bytes, opt: nat)
    requires opt + 168 <= |d|
    ensures NxSet(Load(d, opt + 70, 2), Load(SetNx(d, opt), opt + 70, 2))
  {
    var v := Load(d, opt + 70, 2);
    StoredRegion(d, opt + 70, ToLE(WithNxBit(v), 2));
    FromLEBound(d[opt + 70..opt + 72]);
    WordSizes();
    NxFits(v);
    StoreThenLoad(WithNxBit(v), 2);
  }

  lemma NxFits(v: nat)
    requires v < 0x1_0000
    ensures WithNxBit(v) < 0x1_0000 && NxSet(v, WithNxBit(v))
  {
  }

  lemma StampedFlags(d: bytes, h: Headers, s: Section, name: bytes, d3: bytes)
    requires h.opt + 168 <= |d| && s.off + s.raw <= |d| && Disjoint(h, s)
    requires PatchEntry(SetNx(d, h.opt), h.opt, s) == Ok(d3)
    ensures NxSet(Load(d, h.opt + 70, 2), Load(Seal(d3, s, name), h.opt + 70, 2))
  {
    NxKept(SetNx(d, h.opt), h, s, name, d3);
    FlagsRead(d, h.opt);
  }

  lemma StampedId(out: bytes, s: Section, name: bytes)
    requires Sealed(out, s, name)
    ensures s.off + 53 <= s.off + s.raw <= |out| && out[s.off + 32..s.off + 48] == BuildId.Id(out, s.off + 32)
  {
  }

  lemma FillsIn(d: bytes, d3: bytes, out: bytes, name: bytes, flags: nat, h: Headers, s: Section)
    requires Disjoint(h, s) && h.opt + 168 <= |d| && s.off + s.raw <= |d| && Load(d, h.opt + 70, 2) == flags
    requires PatchEntry(SetNx(d, h.opt), h.opt, s) == Ok(d3) && out == Seal(d3, s, name)
    ensures HeadersStamped(out, h, s) && EntryStamped(out, s) && Sealed(out, s, name) && AgreeElsewhere(d, out, h, s)
    ensures NxSet(flags, Load(out, h.opt + 70, 2))
  {
    StampWrites(d, SetNx(d, h.opt), d3, out, h, s, name);
    StampedFlags(d, h, s, name, d3);
  }

  lemma Elsewhere(d: bytes, out: bytes, h: Headers, r: Record)
    requires AgreeElsewhere(d, out, h, SectionOf(r))
    ensures |out| == |d| && forall j :: 0 <= j < |d| && !Overwritten(h.opt, r, j) ==> out[j] == d[j]
  {
    forall j | 0 <= j < |d| && !Overwritten(h.opt, r, j)
      ensures out[j] == d[j]
    {
      assert !Patched(h, SectionOf(r), j);
    }
  }

  /** A file that is stamped: contents behind the headers, holding a CodeView entry and an RSDS record. */
  ghost predicate Ready(d: bytes, h: Headers, flags: nat, r: Record)
  {
    && RecordOk(r) && 64 <= h.pe && h.opt == h.pe + 24 && h.opt + 168 <= h.table && ContentsBehind(d, h, r)
    && Load(d, h.opt + 70, 2) == flags && Load(d, r.rawPointer + 12, 4) == 2 && Load(d, r.rawPointer + 28, 4) == 0x5344_5352
  }

  lemma ReadyPatches(d: bytes, h: Headers, flags: nat, r: Record)
    requires Ready(d, h, flags, r)
    ensures var s := SectionOf(r);
      PatchEntry(SetNx(d, h.opt), h.opt, s) == Ok(SetEntry(SetDirectory(SetNx(d, h.opt), h.opt, s.rva), s))
  {
    PatchGoesOn(d, h.opt, SectionOf(r));
  }

  lemma LinkedFillsIn(d: bytes, d3: bytes, out: bytes, name: bytes, flags: nat, h: Headers, s: Section)
    requires 64 <= h.pe && h.opt == h.pe + 24 && h.opt + 168 <= h.table && h.table + 40 * h.count <= s.off
    requires s.raw >= 53 && s.off + s.raw <= |d| && Load(d, h.opt + 70, 2) == flags
    requires PatchEntry(SetNx(d, h.opt), h.opt, s) == Ok(d3) && out == Seal(d3, s, name)
    ensures HeadersStamped(out, h, s) && EntryStamped(out, s) && Sealed(out, s, name) && AgreeElsewhere(d, out, h, s)
    ensures NxSet(flags, Load(out, h.opt + 70, 2))
  {
    LinkedIsDisjoint(h, s);
    FillsIn(d, d3, out, name, flags, h, s);
  }

  lemma StampedHolds(d: bytes, out: bytes, name: bytes, h: Headers, flags: nat, r: Record)
    requires Ready(d, h, flags, r) && out == Stamped(d, name, h.opt, r)
    ensures HeadersStamped(out, h, SectionOf(r)) && EntryStamped(out, SectionOf(r)) && Sealed(out, SectionOf(r), name)
    ensures AgreeElsewhere(d, out, h, SectionOf(r)) && NxSet(flags, Load(out, h.opt + 70, 2))
  {
    var s := SectionOf(r);
    ReadyPatches(d, h, flags, r);
    LinkedFillsIn(d, SetEntry(SetDirectory(SetNx(d, h.opt), h.opt, s.rva), s), out, name, flags, h, s);
  }

  /**
    Stamping fills in the flags and data directory 6 from the first .dbgdir
    section header ...
   */
  lemma StampedHeadersShow(d: bytes, out: bytes, name: bytes, h: Headers, flags: nat, r: Record)
    requires Ready(d, h, flags, r) && out == Stamped(d, name, h.opt, r)
    ensures HeadersShow(out, h.opt, flags, r)
  {
    StampedHolds(d, out, name, h, flags, r);
    HeaderWords(out, h, SectionOf(r));
  }

  /** ... the debug entry, the name and the id ... */
  lemma StampedSectionShows(d: bytes, out: bytes, name: bytes, h: Headers, flags: nat, r: Record)
    requires Ready(d, h, flags, r) && out == Stamped(d, name, h.opt, r)
    ensures SectionShows(out, r, name)
  {
    StampedHolds(d, out, name, h, flags, r);
    SectionShowsFrom(out, name, r);
  }

  lemma SectionShowsFrom(out: bytes, name: bytes, r: Record)
    requires EntryStamped(out, SectionOf(r)) && Sealed(out, SectionOf(r), name)
    ensures SectionShows(out, r, name)
  {
    EntryWords(out, SectionOf(r));
    StampedName(out, SectionOf(r), name);
    StampedId(out, SectionOf(r), name);
  }

  /** ... and changes nothing else. */
  lemma StampedElsewhere(d: bytes, out: bytes, name: bytes, h: Headers, flags: nat, r: Record)
    requires Ready(d, h, flags, r) && out == Stamped(d, name, h.opt, r)
    ensures |out| == |d| && forall j :: 0 <= j < |d| && !Overwritten(h.opt, r, j) ==> out[j] == d[j]
  {
    StampedHolds(d, out, name, h, flags, r);
    Elsewhere(d, out, h, r);
  }
}
