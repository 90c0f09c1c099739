/**
  Why scripts/pe-set-debug.c needs what it writes to be apart from what it reads
  for a second run to change nothing: images whose .dbgdir section lies over the
  DOS header.
 */
module StampOverlap {
  import opened Bytes
  import opened Outcomes
  import opened PeStamp

  // --- Every such image ----------------------------------------------------------

  lemma BadOffset(d: bytes, name: bytes)
    requires |d| >= 64 && Load(d, 0, 2) == MZ_MAGIC && (Load(d, 60, 4) + 24) % U32 > |d| % U32
    ensures Stamp(d, name) == Err(BadSignature)
  {
  }

  /** The first two bytes are never written. */
  lemma HeadStays(file: bytes, d3: bytes, name: bytes, h: Headers, s: Section)
    requires h.opt + 168 <= |file| && DDE_SIZE + NAME_OFF < s.raw && s.off + s.raw <= |file|
    requires PatchEntry(SetNx(file, h.opt), h.opt, s) == Ok(d3)
    ensures Seal(d3, s, name)[0..2] == file[0..2]
  {
    var d1 := SetNx(file, h.opt);
    assert d1[0..2] == file[0..2];
    PatchEntryIs(d1, h.opt, s, d3);
    DirectoryKeeps(d1, h.opt, s.rva, 0, 2);
    SectionStagesKeep(SetDirectory(d1, h.opt, s.rva), s, name, 0, 2);
  }

  /** The part of the name that is written over the offset of the PE header. */
  function NameAsOffset(s: Section, name: bytes): nat
    requires s.NameField() <= 60 && 64 <= s.off + s.raw
  {
    Load(NameBytes(name, s.raw - DDE_SIZE - NAME_OFF), 60 - s.NameField(), 4)
  }

  /** The section lies over that offset, and the name points outside a file of the given size. */
  ghost predicate PointsOutside(s: Section, name: bytes, size: nat)
  {
    s.NameField() <= 60 && 64 <= s.off + s.raw && (NameAsOffset(s, name) + 24) % U32 > size % U32
  }

  lemma NameIsOffset(d: bytes, s: Section, name: bytes)
    requires s.NameField() <= 60 && 64 <= s.off + s.raw <= |d|
    ensures Load(Seal(d, s, name), 60, 4) == NameAsOffset(s, name)
  {
    var out, field, at := Seal(d, s, name), NameBytes(name, s.raw - DDE_SIZE - NAME_OFF), 60 - s.NameField();
    SealWritten(d, s, name);
    assert out[60..64] == out[s.NameField()..s.off + s.raw][at..at + 4];
  }

  lemma HasMagic(file: bytes, h: Headers)
    requires ParseHeaders(file) == Ok(h)
    ensures |file| >= 64 && h.opt + 168 <= |file| && Load(file, 0, 2) == MZ_MAGIC
  {
  }

  lemma SealedAgain(file: bytes, d3: bytes, name: bytes, h: Headers, s: Section)
    requires 64 <= |file| && h.opt + 168 <= |file| && s.off + s.raw <= |file| && Load(file, 0, 2) == MZ_MAGIC
    requires PointsOutside(s, name, |file|)
    requires PatchEntry(SetNx(file, h.opt), h.opt, s) == Ok(d3)
    ensures Stamp(Seal(d3, s, name), name) == Err(BadSignature)
  {
    HeadStays(file, d3, name, h, s);
    NameIsOffset(d3, s, name);
    BadOffset(Seal(d3, s, name), name);
  }

  /**
    An image with the section over the DOS header is not stamped again if the
    name, taken for the offset of the PE header, points outside the file.
   */
  lemma NameOverHeaderBreaks(file: bytes, out: bytes, name: bytes, h: Headers, s: Section)
    requires ParseHeaders(file) == Ok(h) && LocateSection(SetNx(file, h.opt), h) == Ok(s) && Stamp(file, name) == Ok(out)
    requires PointsOutside(s, name, |file|)
    ensures Stamp(out, name) == Err(BadSignature)
  {
    var d3 := StampStages(file, name, h, s);
    HasMagic(file, h);
    SealedAgain(file, d3, name, h, s);
  }

  // --- One of them -----------------------------------------------------------------

  /** The section is the first 80 bytes of the file, the PE header at 128. */
  function Overlapping(): (file: bytes)
  {
    seq(360, k requires 0 <= k < 360 => OverlappingAt(k))
  }

  function OverlappingAt(k: nat): byte
  {
    if 320 <= k < 328 then SECTION_NAME[k - 320]
    else if k < 128 then
      match k
      case 0 => 0x4D
      case 1 => 0x5A
      case 12 => 2
      case 28 => 0x52
      case 29 => 0x53
      case 30 => 0x44
      case 31 => 0x53
      case 60 => 128
      case _ => 0
    else
      match k
      case 128 => 0x50
      case 129 => 0x45
      case 134 => 1
      case 148 => 168
      case 152 => 0x0B
      case 153 => 0x02
      case 260 => 7
      case 336 => 80
      case _ => 0
  }

  /** A small number in a four-byte field. */
  lemma Small(d: bytes, at: nat, v: byte)
    requires at + 4 <= |d| && d[at] == v && d[at + 1] == 0 && d[at + 2] == 0 && d[at + 3] == 0
    ensures Load(d, at, 4) == v
  {
    FourBytes(d, at);
    TwoBytes(d, at, v, 0);
    TwoBytes(d, at + 2, 0, 0);
  }

  const HEADERS := Headers(128, 152, 320, 1)
  const SECTION := Section(0, 80, 0)

  lemma ParsesTo(d: bytes, pe: nat, size: nat, count: nat)
    requires pe + 192 <= |d| < U32 && 64 <= |d| && Load(d, 0, 2) == MZ_MAGIC && Load(d, 60, 4) == pe && Load(d, pe, 4) == PE_MAGIC
    requires Load(d, pe + 24, 2) == PE32PLUS_MAGIC && Load(d, pe + 20, 2) == size && Load(d, pe + 6, 2) == count
    ensures ParseHeaders(d) == Ok(Headers(pe, pe + 24, pe + 24 + size, count))
  {
  }

  lemma OverlapFixedFields(d: bytes)
    requires d == Overlapping()
    ensures |d| == 360 && Load(d, 0, 2) == MZ_MAGIC && Load(d, 128, 4) == PE_MAGIC && Load(d, 152, 2) == PE32PLUS_MAGIC
  {
    TwoBytes(d, 0, 0x4D, 0x5A);
    FourBytes(d, 128);
    TwoBytes(d, 128, 0x50, 0x45);
    TwoBytes(d, 130, 0, 0);
    TwoBytes(d, 152, 0x0B, 0x02);
  }

  lemma OverlapNumbers(d: bytes)
    requires d == Overlapping()
    ensures |d| == 360 && Load(d, 60, 4) == 128 && Load(d, 148, 2) == 168 && Load(d, 134, 2) == 1
  {
    Small(d, 60, 128);
    TwoBytes(d, 148, 168, 0);
    TwoBytes(d, 134, 1, 0);
  }

  lemma OverlapParses(d: bytes)
    requires d == Overlapping()
    ensures ParseHeaders(d) == Ok(HEADERS)
  {
    OverlapFixedFields(d);
    OverlapNumbers(d);
    ParsesTo(d, 128, 168, 1);
  }

  /** The image, but for the flags word. */
  ghost predicate Marked(d: bytes)
  {
    |d| == 360 && forall k :: 0 <= k < 360 && !(222 <= k < 224) ==> d[k] == OverlappingAt(k)
  }

  lemma OverlapLocates(d: bytes)
    requires Marked(d)
    ensures LocateSection(d, HEADERS) == Ok(SECTION)
  {
    Small(d, 260, 7);
    Small(d, 332, 0);
    Small(d, 336, 80);
    Small(d, 340, 0);
    assert d[320..328] == SECTION_NAME;
  }

  lemma OverlapPatches(d: bytes)
    requires Marked(d)
    ensures PatchEntry(d, HEADERS.opt, SECTION).Ok?
  {
    DirectoryKeeps(d, 152, 0, 12, 16);
    DirectoryKeeps(d, 152, 0, 28, 32);
    EntryKeeps(SetDirectory(d, 152, 0), SECTION, 28, 32);
    Small(d, 12, 2);
    FourBytes(d, 28);
    TwoBytes(d, 28, 0x52, 0x53);
    TwoBytes(d, 30, 0x44, 0x53);
  }

  lemma StampsTo(file: bytes, name: bytes, h: Headers, s: Section) returns (out: bytes)
    requires ParseHeaders(file) == Ok(h) && LocateSection(SetNx(file, h.opt), h) == Ok(s)
    requires PatchEntry(SetNx(file, h.opt), h.opt, s).Ok?
    ensures Stamp(file, name) == Ok(out)
  {
    out := Stamp(file, name).value;
  }

  lemma OverlapIsMarked()
    ensures Marked(SetNx(Overlapping(), HEADERS.opt))
  {
  }

  lemma LongNameIsOffset(name: bytes)
    requires |name| == 12 && name[8] == name[9] == name[10] == name[11] == 0x78
    ensures PointsOutside(SECTION, name, 360)
  {
    var field := NameBytes(name, 28);
    FourBytes(field, 8);
    TwoBytes(field, 8, 0x78, 0x78);
    TwoBytes(field, 10, 0x78, 0x78);
  }

  /** All checks of a run pass. */
  ghost predicate Accepted(file: bytes, h: Headers, s: Section)
  {
    && ParseHeaders(file) == Ok(h) && LocateSection(SetNx(file, h.opt), h) == Ok(s)
    && PatchEntry(SetNx(file, h.opt), h.opt, s).Ok?
  }

  lemma OverlapIsAccepted(file: bytes)
    requires file == Overlapping()
    ensures |file| == 360 && Accepted(file, HEADERS, SECTION)
  {
    OverlapParses(file);
    OverlapIsMarked();
    OverlapLocates(SetNx(file, HEADERS.opt));
    OverlapPatches(SetNx(file, HEADERS.opt));
  }

  lemma StampsOnce(file: bytes, name: bytes, h: Headers, s: Section) returns (out: bytes)
    requires Accepted(file, h, s) && PointsOutside(s, name, |file|)
    ensures Stamp(file, name) == Ok(out) && Stamp(out, name) == Err(BadSignature)
  {
    out := StampsTo(file, name, h, s);
    NameOverHeaderBreaks(file, out, name, h, s);
  }

  /** It is stamped once and not again. */
  lemma OverlapIsStampedOnce(file: bytes, name: bytes) returns (out: bytes)
    requires file == Overlapping() && |name| == 12 && name[8] == name[9] == name[10] == name[11] == 0x78
    ensures Stamp(file, name) == Ok(out) && Stamp(out, name) == Err(BadSignature)
  {
    OverlapIsAccepted(file);
    LongNameIsOffset(name);
    out := StampsOnce(file, name, HEADERS, SECTION);
  }
}
