/**
  The fixed formats scripts/extract-fv-shell.py relies on, spelt out: volume
  headers put together field by field, and the GUIDs by their fields.
 */
module VolumeHeaders {
  import opened Bytes
  import opened Outcomes
  import opened FirmwareVolume
  import opened FirmwareTree

  // --- GUIDs and the signature -----------------------------------------------------

  /** The 16 bytes are those of the GUID with these fields, the first three stored little-endian. */
  ghost predicate IsGuid(raw: bytes, time: nat, mid: nat, high: nat, rest: bytes)
  {
    |raw| == 16 && Load(raw, 0, 4) == time && Load(raw, 4, 2) == mid && Load(raw, 6, 2) == high && raw[8..] == rest
  }

  lemma GuidOf(raw: bytes, p: bytes, rest: bytes)
    requires |p| == 8 && |rest| == 8 && raw == p + rest
    ensures IsGuid(raw, Word(p, 0) + 0x1_0000 * Word(p, 2), Word(p, 4), Word(p, 6), rest)
  {
    FourBytes(raw, 0);
    TwoBytes(raw, 0, p[0], p[1]);
    TwoBytes(raw, 2, p[2], p[3]);
    TwoBytes(raw, 4, p[4], p[5]);
    TwoBytes(raw, 6, p[6], p[7]);
  }

  function Word(p: bytes, k: nat): nat
    requires k + 1 < |p|
  {
    p[k] as nat + 0x100 * p[k + 1] as nat
  }

  lemma ShellGuidIs()
    ensures IsGuid(SHELL_GUID, 0x7C04A583, 0x9E3E, 0x4F1C, [0xAD, 0x65, 0xE0, 0x52, 0x68, 0xD0, 0xB4, 0xD1])
  {
    var p: bytes, rest: bytes := [0x83, 0xA5, 0x04, 0x7C, 0x3E, 0x9E, 0x1C, 0x4F], [0xAD, 0x65, 0xE0, 0x52, 0x68, 0xD0, 0xB4, 0xD1];
    assert SHELL_GUID == p + rest;
    GuidOf(SHELL_GUID, p, rest);
  }

  lemma LzmaGuidIs()
    ensures IsGuid(LZMA_GUID, 0xEE4E5898, 0x3914, 0x4259, [0x9D, 0x6E, 0xDC, 0x7B, 0xD7, 0x94, 0x03, 0xCF])
  {
    var p: bytes, rest: bytes := [0x98, 0x58, 0x4E, 0xEE, 0x14, 0x39, 0x59, 0x42], [0x9D, 0x6E, 0xDC, 0x7B, 0xD7, 0x94, 0x03, 0xCF];
    assert LZMA_GUID == p + rest;
    GuidOf(LZMA_GUID, p, rest);
  }

  function Ascii(s: string): bytes
    requires forall k :: 0 <= k < |s| ==> s[k] < '\U{80}'
  {
    seq(|s|, k requires 0 <= k < |s| => s[k] as int)
  }

  // --- Volume headers ----------------------------------------------------------------

  /** The fixed fields up to the extended header's offset: 54 bytes. */
  function FixedFields(lead: bytes, length: nat, attributes: bytes, headerLength: nat, checksum: bytes, ext: nat): bytes
  {
    lead + ToLE(length, 8) + Ascii("_FVH") + attributes + ToLE(headerLength, 2) + checksum + ToLE(ext, 2)
  }

  ghost predicate FieldsFit(lead: bytes, length: nat, attributes: bytes, headerLength: nat, checksum: bytes, ext: nat)
  {
    && |lead| == 32 && length < 0x1_0000_0000_0000_0000 && |attributes| == 4 && headerLength < 0x1_0000
    && |checksum| == 2 && ext < 0x1_0000
  }

  lemma FixedFieldsRead(lead: bytes, length: nat, attributes: bytes, headerLength: nat, checksum: bytes, ext: nat)
    requires FieldsFit(lead, length, attributes, headerLength, checksum, ext)
    ensures var f := FixedFields(lead, length, attributes, headerLength, checksum, ext);
      && |f| == 54 && f[40..44] == FVH_SIGNATURE && Load(f, 32, 8) == length
      && Load(f, 48, 2) == headerLength && Load(f, 52, 2) == ext
  {
    var f := FixedFields(lead, length, attributes, headerLength, checksum, ext);
    WordSizes();
    StoreThenLoad(length, 8);
    StoreThenLoad(headerLength, 2);
    StoreThenLoad(ext, 2);
    FieldSlices(lead, ToLE(length, 8), Ascii("_FVH"), attributes, ToLE(headerLength, 2), checksum, ToLE(ext, 2));
  }

  lemma FieldSlices(lead: bytes, length: bytes, sign: bytes, attributes: bytes, header: bytes, checksum: bytes, ext: bytes)
    requires |lead| == 32 && |length| == 8 && |sign| == 4 && |attributes| == 4 && |header| == |checksum| == |ext| == 2
    ensures var f := lead + length + sign + attributes + header + checksum + ext;
      f[32..40] == length && f[40..44] == sign && f[48..50] == header && f[52..54] == ext
  {
  }

  /** The fields of the front are those of the whole. */
  lemma FrontReads(f: bytes, rest: bytes)
    requires |f| == 54
    ensures var h := f + rest;
      && h[40..44] == f[40..44] && Load(h, 32, 8) == Load(f, 32, 8)
      && Load(h, 48, 2) == Load(f, 48, 2) && Load(h, 52, 2) == Load(f, 52, 2)
  {
    var h := f + rest;
    assert h[32..40] == f[32..40] && h[48..50] == f[48..50] && h[52..54] == f[52..54];
  }

  /** A header without extension: the files follow its block map, at the next multiple of 8. */
  lemma PlainHeaderIsOk(lead: bytes, length: nat, attributes: bytes, headerLength: nat, checksum: bytes, blocks: bytes, pad: bytes)
    requires FieldsFit(lead, length, attributes, headerLength, checksum, 0)
    requires headerLength == 54 + |blocks| >= 0x40 && |pad| < 8 && (headerLength + |pad|) % 8 == 0
    ensures HeaderOk(FixedFields(lead, length, attributes, headerLength, checksum, 0) + (blocks + pad))
  {
    FixedFieldsRead(lead, length, attributes, headerLength, checksum, 0);
    FrontReads(FixedFields(lead, length, attributes, headerLength, checksum, 0), blocks + pad);
  }

  /** The extended header: FvName, its own size, whatever else it holds. */
  function Extension(name: bytes, more: bytes): bytes
  {
    name + ToLE(20 + |more|, 4) + more
  }

  lemma ExtensionRead(front: bytes, name: bytes, more: bytes, pad: bytes)
    requires |name| == 16 && 20 + |more| < 0x1_0000_0000
    ensures Load(front + Extension(name, more) + pad, |front| + 16, 4) == 20 + |more|
  {
    var h := front + Extension(name, more) + pad;
    WordSizes();
    assert h[|front| + 16..|front| + 16 + 4] == ToLE(20 + |more|, 4);
    StoreThenLoad(20 + |more|, 4);
  }

  /** With an extension the files follow that, wherever it lies, and the header length says nothing. */
  lemma ExtendedHeaderIsOk(lead: bytes, length: nat, attributes: bytes, headerLength: nat, checksum: bytes, blocks: bytes,
                           name: bytes, more: bytes, pad: bytes)
    requires FieldsFit(lead, length, attributes, headerLength, checksum, 54 + |blocks|)
    requires |name| == 16 && 20 + |more| < 0x1_0000_0000 && |pad| < 8 && (54 + |blocks| + 20 + |more| + |pad|) % 8 == 0
    ensures HeaderOk(FixedFields(lead, length, attributes, headerLength, checksum, 54 + |blocks|) + blocks + Extension(name, more) + pad)
  {
    var fixed := FixedFields(lead, length, attributes, headerLength, checksum, 54 + |blocks|);
    FixedFieldsRead(lead, length, attributes, headerLength, checksum, 54 + |blocks|);
    FrontReads(fixed, blocks + Extension(name, more) + pad);
    ExtensionRead(fixed + blocks, name, more, pad);
    assert fixed + blocks + Extension(name, more) + pad == fixed + (blocks + Extension(name, more) + pad);
  }

  // --- Headers cut short ---------------------------------------------------------------

  /** An extended header that is not there raises. */
  lemma MissingExtensionRaises(lz: Codec, fv: bytes, depth: nat)
    requires |fv| >= 0x40 && fv[40..44] == Ascii("_FVH") && Load(fv, 52, 2) != 0 && Load(fv, 52, 2) + 20 > |fv| && depth > 0
    ensures SearchVolume(lz, fv, depth) == Raised
  {
    assert Ascii("_FVH") == FVH_SIGNATURE;
  }

  /** What is not signed, or too short to be, holds no files. */
  lemma UnsignedIsEmpty(lz: Codec, fv: bytes, depth: nat)
    requires (|fv| < 0x40 || fv[40..44] != Ascii("_FVH")) && depth > 0
    ensures SearchVolume(lz, fv, depth) == NotFound
  {
    assert Ascii("_FVH") == FVH_SIGNATURE;
  }

  /** A section too short for its own fields raises: GUIDED below 24 bytes, COMPRESSION below 9. */
  lemma ShortSectionRaises(lz: Codec, x: bytes, kind: byte, body: nat, rest: bytes, guid: bytes, depth: nat)
    requires SectionSays(x, kind, body) && depth > 0 && ((kind == 2 && |x| < 24) || (kind == 1 && |x| < 9))
    ensures SearchSections(lz, x + rest, guid, depth) == Raised
  {
    var b := x + rest;
    assert b[0..|x|] == x;
    SectionRead(x, kind, body, b, 0);
    SearchItemsStep(lz, b, x, SectionAt(0, kind, |x|, body), SectionsFrom(b, Align(|x|, 4)), guid, depth - 1);
  }

  /** A file whose 64-bit size is cut off raises; so does a section whose 32-bit size is. */
  lemma CutSizeRaises(fv: bytes, pos: nat)
    requires pos + 24 <= |fv| < pos + 32 && fv[pos + 19] % 2 == 1
    ensures FilesFrom(fv, pos) == Raise
  {
  }

  lemma CutSectionSizeRaises(b: bytes, pos: nat)
    requires pos + 4 <= |b| < pos + 8 && Load(b, pos, 3) == 0xFF_FFFF
    ensures SectionsFrom(b, pos) == Raise
  {
  }
}
