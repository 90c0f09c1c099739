/**
  Firmware as a tree of volumes, files and sections, its layout as bytes, and
  the proof that the walker of FirmwareVolume finds in the bytes exactly what a
  reader of the tree would point at.
 */
module FirmwareTree {
  import opened Bytes
  import opened Outcomes
  import opened FirmwareVolume

  /** A section. `wide` selects the extended 8-byte header. */
  datatype Section =
    | Executable(te: bool, wide: bool, image: bytes)
    | Lzma(attrs: nat, extra: bytes, packed: bytes, inner: Sections)
    | Raw(codec: bytes, attrs: nat, extra: bytes, inner: Sections)
    | Undecodable(codec: bytes, attrs: nat, extra: bytes, packed: bytes)
    | Uncompressed(length: bytes, inner: Sections)
    | Compressed(length: bytes, scheme: byte, packed: bytes)
    | VolumeImage(wide: bool, volume: Volume)
    | Other(kind: byte, wide: bool, data: bytes)

  /**
    A section stream: sections padded to the next boundary, and in the end either
    bytes that end the stream or a last section with as much padding as there is.
   */
  datatype Sections = Done(tail: bytes) | Last(head: Section, gap: bytes) | More(head: Section, gap: bytes, rest: Sections)

  /** A file: its 24- or 32-byte header, then its sections or, for a file that is skipped, raw data. */
  datatype File =
    | Real(head: bytes, content: Sections)
    | Skipped(head: bytes, data: bytes)

  datatype FileList = NoFiles(tail: bytes) | LastFile(head: File, gap: bytes) | AndFile(head: File, gap: bytes, rest: FileList)

  datatype Volume = Volume(header: bytes, files: FileList)

  // --- Layout -------------------------------------------------------------------------

  function SectionHead(kind: byte, wide: bool, length: nat): (h: bytes)
    ensures |h| == if wide then 8 else 4
  {
    if wide then [0xFF, 0xFF, 0xFF, kind] + ToLE(8 + length, 4) else ToLE(4 + length, 3) + [kind]
  }

  function GuidedPayload(codec: bytes, attrs: nat, extra: bytes, data: bytes): (p: bytes)
  {
    codec + ToLE(24 + |extra|, 2) + ToLE(attrs, 2) + extra + data
  }

  function Kind(s: Section): (k: byte)
  {
    match s
    case Executable(te, _, _) => if te then SECTION_TE else SECTION_PE32
    case Lzma(_, _, _, _) => SECTION_GUID_DEFINED
    case Raw(_, _, _, _) => SECTION_GUID_DEFINED
    case Undecodable(_, _, _, _) => SECTION_GUID_DEFINED
    case Uncompressed(_, _) => SECTION_COMPRESSION
    case Compressed(_, _, _) => SECTION_COMPRESSION
    case VolumeImage(_, _) => SECTION_FV_IMAGE
    case Other(kind, _, _) => kind
  }

  /** GUIDED and COMPRESSION sections have the short header. */
  predicate IsWide(s: Section)
  {
    match s
    case Executable(_, wide, _) => wide
    case VolumeImage(wide, _) => wide
    case Other(_, wide, _) => wide
    case _ => false
  }

  function Payload(s: Section): (p: bytes)
    decreases s, 0
  {
    match s
    case Executable(_, _, image) => image
    case Lzma(attrs, extra, packed, _) => GuidedPayload(LZMA_GUID, attrs, extra, packed)
    case Raw(codec, attrs, extra, inner) => GuidedPayload(codec, attrs, extra, SectionsBytes(inner))
    case Undecodable(codec, attrs, extra, packed) => GuidedPayload(codec, attrs, extra, packed)
    case Uncompressed(length, inner) => length + [0] + SectionsBytes(inner)
    case Compressed(length, scheme, packed) => length + [scheme] + packed
    case VolumeImage(_, volume) => VolumeBytes(volume)
    case Other(_, _, data) => data
  }

  function SectionBytes(s: Section): (b: bytes)
    decreases s, 1
  {
    SectionHead(Kind(s), IsWide(s), |Payload(s)|) + Payload(s)
  }

  function SectionsBytes(ss: Sections): (b: bytes)
  {
    match ss
    case Done(tail) => tail
    case Last(head, gap) => SectionBytes(head) + gap
    case More(head, gap, rest) => SectionBytes(head) + gap + SectionsBytes(rest)
  }

  function FileContent(f: File): (b: bytes)
    decreases f, 0
  {
    match f
    case Real(_, content) => SectionsBytes(content)
    case Skipped(_, data) => data
  }

  function FileBytes(f: File): (b: bytes)
    decreases f, 1
  {
    f.head + FileContent(f)
  }

  function FilesBytes(fs: FileList): (b: bytes)
  {
    match fs
    case NoFiles(tail) => tail
    case LastFile(head, gap) => FileBytes(head) + gap
    case AndFile(head, gap, rest) => FileBytes(head) + gap + FilesBytes(rest)
  }

  function VolumeBytes(v: Volume): (b: bytes)
  {
    v.header + FilesBytes(v.files)
  }

  // --- Which trees have a layout ----------------------------------------------------------

  /** Bytes at which a section stream ends quietly. */
  predicate EndsSections(tail: bytes)
  {
    || |tail| < 4
    || (Load(tail, 0, 3) != WIDE && (Load(tail, 0, 3) < 4 || Load(tail, 0, 3) > |tail|))
    || (Load(tail, 0, 3) == WIDE && |tail| >= 8 && (Load(tail, 4, 4) < 8 || Load(tail, 4, 4) > |tail|))
  }

  /** Bytes at which the files of a volume end quietly. */
  predicate EndsFiles(tail: bytes)
  {
    || |tail| < 24
    || (tail[19] % 2 == 0 && (Load(tail, 20, 3) == WIDE || Load(tail, 20, 3) < 24 || Load(tail, 20, 3) > |tail|))
    || (tail[19] % 2 == 1 && |tail| >= 32 && (Load(tail, 24, 8) < 32 || Load(tail, 24, 8) > |tail|))
  }

  /** Padding reaches the next boundary. */
  predicate Padded(size: nat, gap: nat, boundary: nat)
    requires boundary == 4 || boundary == 8
  {
    size + gap == Align(size, boundary)
  }

  /** Padding stops at or short of the next boundary. */
  predicate CutShort(size: nat, gap: nat, boundary: nat)
    requires boundary == 4 || boundary == 8
  {
    size + gap <= Align(size, boundary)
  }

  ghost predicate SectionOk(lz: Codec, s: Section)
    decreases s, 1
  {
    && (if IsWide(s) then 8 + |Payload(s)| < 0x1_0000_0000 else 4 + |Payload(s)| < WIDE)
    && match s
       case Executable(_, _, _) => true
       case Lzma(attrs, extra, packed, inner) =>
         attrs < 0x1_0000 && 24 + |extra| < 0x1_0000 && lz(packed) == Some(SectionsBytes(inner)) && SectionsOk(lz, inner)
       case Raw(codec, attrs, extra, inner) =>
         && |codec| == 16 && attrs < 0x1_0000 && attrs % 2 == 0 && 24 + |extra| < 0x1_0000
         && (codec != LZMA_GUID || lz(SectionsBytes(inner)) == None) && SectionsOk(lz, inner)
       case Undecodable(codec, attrs, extra, packed) =>
         && |codec| == 16 && attrs < 0x1_0000 && attrs % 2 == 1 && 24 + |extra| < 0x1_0000
         && (codec != LZMA_GUID || lz(packed) == None)
       case Uncompressed(length, inner) => |length| == 4 && SectionsOk(lz, inner)
       case Compressed(length, scheme, _) => |length| == 4 && scheme != 0
       case VolumeImage(_, volume) => VolumeOk(lz, volume)
       case Other(kind, _, _) => kind !in {SECTION_COMPRESSION, SECTION_GUID_DEFINED, SECTION_PE32, SECTION_TE, SECTION_FV_IMAGE}
  }

  ghost predicate SectionsOk(lz: Codec, ss: Sections)
  {
    match ss
    case Done(tail) => EndsSections(tail)
    case Last(head, gap) => SectionOk(lz, head) && CutShort(|SectionBytes(head)|, |gap|, 4)
    case More(head, gap, rest) => SectionOk(lz, head) && Padded(|SectionBytes(head)|, |gap|, 4) && SectionsOk(lz, rest)
  }

  /** A header that announces the right size: short, or with the large-file attribute and a 64-bit size. */
  predicate HeadSays(head: bytes, length: nat)
  {
    || (|head| == 24 && head[19] % 2 == 0 && Load(head, 20, 3) == 24 + length < WIDE)
    || (|head| == 32 && head[19] % 2 == 1 && Load(head, 24, 8) == 32 + length)
  }

  /** Pad files, type 0xF0, and files with an erased name are skipped. */
  predicate Hidden(name: bytes, kind: byte)
  {
    kind == 0xF0 || name == seq(16, _ => 0xFF)
  }

  lemma YieldedUnlessHidden(name: bytes, kind: byte)
    ensures Yielded(name, kind) <==> !Hidden(name, kind)
  {
    assert Erased(name) ==> name == seq(16, _ => 0xFF);
  }

  ghost predicate FileFits(f: File)
  {
    HeadSays(f.head, |FileContent(f)|) && (f.Skipped? <==> Hidden(f.head[..16], f.head[18]))
  }

  ghost predicate FileOk(lz: Codec, f: File)
    decreases f, 1
  {
    FileFits(f) && (f.Real? ==> SectionsOk(lz, f.content))
  }

  ghost predicate FilesOk(lz: Codec, fs: FileList)
  {
    match fs
    case NoFiles(tail) => EndsFiles(tail)
    case LastFile(head, gap) => FileOk(lz, head) && CutShort(|FileBytes(head)|, |gap|, 8)
    case AndFile(head, gap, rest) => FileOk(lz, head) && Padded(|FileBytes(head)|, |gap|, 8) && FilesOk(lz, rest)
  }

  /**
    The files start behind the header: at the first 8-byte boundary after its
    HeaderLength bytes or, where ExtHeaderOffset is not zero, after the
    ExtHeaderSize bytes of the extended header found there.
   */
  predicate HeaderOk(header: bytes)
  {
    && |header| >= 0x40
    && header[40..44] == FVH_SIGNATURE
    && var ext := Load(header, 52, 2);
       if ext == 0 then Load(header, 48, 2) <= |header| < Load(header, 48, 2) + 8 && |header| % 8 == 0
       else
         && ext + 20 <= |header| && |header| % 8 == 0
         && ext + Load(header, ext + 16, 4) <= |header| < ext + Load(header, ext + 16, 4) + 8
  }

  ghost predicate VolumeOk(lz: Codec, v: Volume)
  {
    HeaderOk(v.header) && FilesOk(lz, v.files)
  }

  // --- What a reader of the tree sees -----------------------------------------------------------

  function Name(f: File): (name: bytes)
  {
    if |f.head| >= 16 then f.head[..16] else f.head
  }

  /** An executable image and the name of the file that encloses it most closely. */
  datatype Located = Located(file: bytes, image: bytes)

  /** Every executable that can be reached, in document order. */
  function SectionImages(s: Section, file: bytes): (r: seq<Located>)
  {
    match s
    case Executable(_, _, image) => [Located(file, image)]
    case Lzma(_, _, _, inner) => Images(inner, file)
    case Raw(_, _, _, inner) => Images(inner, file)
    case Uncompressed(_, inner) => Images(inner, file)
    case VolumeImage(_, volume) => FileImages(volume.files)
    case _ => []
  }

  function Images(ss: Sections, file: bytes): (r: seq<Located>)
  {
    match ss
    case Done(_) => []
    case Last(head, _) => SectionImages(head, file)
    case More(head, _, rest) => SectionImages(head, file) + Images(rest, file)
  }

  function ImagesOfFile(f: File): (r: seq<Located>)
  {
    if f.Real? then Images(f.content, Name(f)) else []
  }

  function FileImages(fs: FileList): (r: seq<Located>)
  {
    match fs
    case NoFiles(_) => []
    case LastFile(head, _) => ImagesOfFile(head)
    case AndFile(head, _, rest) => ImagesOfFile(head) + FileImages(rest)
  }

  /** The first executable of the Shell file. */
  function FirstShell(images: seq<Located>): (r: Outcome)
  {
    if images == [] then NotFound
    else if images[0].file == SHELL_GUID then Found(images[0].image)
    else FirstShell(images[1..])
  }

  ghost predicate NoShellBefore(images: seq<Located>, i: nat)
  {
    forall j :: 0 <= j < i && j < |images| ==> images[j].file != SHELL_GUID
  }

  lemma {:induction false} FirstShellIsFirst(images: seq<Located>)
    ensures FirstShell(images).NotFound? <==> forall i :: 0 <= i < |images| ==> images[i].file != SHELL_GUID
    ensures FirstShell(images).Found? <==> exists i :: 0 <= i < |images| && images[i].file == SHELL_GUID
    ensures !FirstShell(images).Raised?
    ensures forall i :: (0 <= i < |images| && images[i].file == SHELL_GUID && NoShellBefore(images, i)) ==>
              FirstShell(images) == Found(images[i].image)
  {
    if images != [] {
      FirstShellIsFirst(images[1..]);
      assert images == [images[0]] + images[1..];
      forall i | 0 <= i < |images| && images[i].file == SHELL_GUID && NoShellBefore(images, i)
        ensures FirstShell(images) == Found(images[i].image)
      {
        if i > 0 {
          assert images[1..][i - 1] == images[i];
          assert NoShellBefore(images[1..], i - 1);
        }
      }
    }
  }

  lemma {:induction false} FirstShellConcat(a: seq<Located>, b: seq<Located>)
    ensures FirstShell(a + b) == if FirstShell(a).NotFound? then FirstShell(b) else FirstShell(a)
  {
    if a == [] {
      assert a + b == b;
    } else {
      FirstShellConcat(a[1..], b);
      assert (a + b)[1..] == a[1..] + b;
    }
  }

  // --- Nesting depth --------------------------------------------------------------------------------

  function Max(a: nat, b: nat): (m: nat)
  {
    if a >= b then a else b
  }

  function SectionDepth(s: Section): (d: nat)
  {
    match s
    case Lzma(_, _, _, inner) => 1 + ItemsDepth(inner)
    case Raw(_, _, _, inner) => 1 + ItemsDepth(inner)
    case Uncompressed(_, inner) => 1 + ItemsDepth(inner)
    case VolumeImage(_, volume) => 1 + FilesDepth(volume.files)
    case _ => 0
  }

  function ItemsDepth(ss: Sections): (d: nat)
  {
    match ss
    case Done(_) => 0
    case Last(head, _) => SectionDepth(head)
    case More(head, _, rest) => Max(SectionDepth(head), ItemsDepth(rest))
  }

  function FileDepth(f: File): (d: nat)
  {
    if f.Real? then 1 + ItemsDepth(f.content) else 0
  }

  function FilesDepth(fs: FileList): (d: nat)
  {
    match fs
    case NoFiles(_) => 0
    case LastFile(head, _) => FileDepth(head)
    case AndFile(head, _, rest) => Max(FileDepth(head), FilesDepth(rest))
  }

  // --- Reading back one header ------------------------------------------------------------------------

  lemma AlignFrom4(pos: nat, size: nat)
    requires pos % 4 == 0
    ensures Align(pos + size, 4) == pos + Align(size, 4)
  {
  }

  lemma AlignFrom8(pos: nat, size: nat)
    requires pos % 8 == 0
    ensures Align(pos + size, 8) == pos + Align(size, 8)
  {
  }

  lemma Round4(at: nat, size: nat, gap: nat, units: nat)
    requires gap < 4 && size + gap == 4 * units
    ensures Align(4 * at + size, 4) == 4 * (at + units)
  {
  }

  lemma Round8(at: nat, size: nat, gap: nat, units: nat)
    requires gap < 8 && size + gap == 8 * units
    ensures Align(8 * at + size, 8) == 8 * (at + units)
  {
  }

  lemma SectionHeadRead(kind: byte, wide: bool, p: bytes)
    requires if wide then 8 + |p| < 0x1_0000_0000 else 4 + |p| < WIDE
    ensures var h := SectionHead(kind, wide, |p|) + p;
            && h[3] == kind
            && (if wide then Load(h, 0, 3) == WIDE && Load(h, 4, 4) == 8 + |p| else Load(h, 0, 3) == 4 + |p|)
  {
    var h := SectionHead(kind, wide, |p|) + p;
    WordSizes();
    if wide {
      assert ToLE(WIDE, 3) == [0xFF] + ([0xFF] + ([0xFF] + []));
      assert h[0..3] == ToLE(WIDE, 3);
      StoreThenLoad(WIDE, 3);
      assert h[4..8] == ToLE(8 + |p|, 4);
      StoreThenLoad(8 + |p|, 4);
    } else {
      assert h[0..3] == ToLE(4 + |p|, 3);
      StoreThenLoad(4 + |p|, 3);
    }
  }

  /** `x` is one whole section of the given kind whose body starts at offset `body`. */
  ghost predicate SectionSays(x: bytes, kind: byte, body: nat)
  {
    && (body == 4 || body == 8) && body <= |x| && x[3] == kind
    && (if body == 8 then Load(x, 0, 3) == WIDE && Load(x, 4, 4) == |x| else Load(x, 0, 3) == |x| && |x| != WIDE)
  }

  /** A section where the walk stands is yielded, and the walk continues at the next boundary. */
  lemma SectionRead(x: bytes, kind: byte, body: nat, b: bytes, pos: nat)
    requires SectionSays(x, kind, body) && At(b, pos, x)
    ensures SectionsFrom(b, pos) == Yield(SectionAt(pos, kind, |x|, body), SectionsFrom(b, Align(pos + |x|, 4)))
  {
    LoadShift(b, pos, x, 0, 3);
    if body == 8 {
      LoadShift(b, pos, x, 4, 4);
    }
    ByteShift(b, pos, x, 3);
  }

  ghost predicate SectionFits(s: Section)
  {
    if IsWide(s) then 8 + |Payload(s)| < 0x1_0000_0000 else 4 + |Payload(s)| < WIDE
  }

  function BodyOffset(s: Section): (n: nat)
  {
    if IsWide(s) then 8 else 4
  }

  lemma SectionBytesSay(s: Section)
    requires SectionFits(s)
    ensures SectionSays(SectionBytes(s), Kind(s), BodyOffset(s))
  {
    SectionHeadRead(Kind(s), IsWide(s), Payload(s));
  }

  lemma StreamEnds(tail: bytes, b: bytes, pos: nat)
    requires At(b, pos, tail) && pos + |tail| == |b| && EndsSections(tail)
    ensures SectionsFrom(b, pos) == Stop
  {
    if |tail| >= 4 {
      LoadShift(b, pos, tail, 0, 3);
      if |tail| >= 8 {
        LoadShift(b, pos, tail, 4, 4);
      }
    }
  }

  /** After a padded section the walk continues right behind the padding. */
  lemma SectionThenRest(x: bytes, kind: byte, body: nat, gap: nat, units: nat, b: bytes, at: nat)
    requires At(b, 4 * at, x) && SectionSays(x, kind, body) && gap < 4 && |x| + gap == 4 * units
    ensures SectionsFrom(b, 4 * at) == Yield(SectionAt(4 * at, kind, |x|, body), SectionsFrom(b, 4 * (at + units)))
  {
    SectionRead(x, kind, body, b, 4 * at);
    Round4(at, |x|, gap, units);
  }

  /** After the last section there is nothing left to read. */
  lemma SectionThenNothing(x: bytes, kind: byte, body: nat, gap: nat, b: bytes, at: nat)
    requires At(b, 4 * at, x) && 4 * at + |x| + gap == |b|
    requires SectionSays(x, kind, body) && CutShort(|x|, gap, 4)
    ensures SectionsFrom(b, 4 * at) == Yield(SectionAt(4 * at, kind, |x|, body), Stop)
  {
    SectionRead(x, kind, body, b, 4 * at);
    AlignFrom4(4 * at, |x|);
  }

  /**
    A section stream as a flat list of laid-out sections, each with its padding,
    the number of 4-byte units the two take, and what searching it should find.
   */
  datatype Pieces =
    | End(tail: bytes)
    | LastPiece(x: bytes, kind: byte, body: nat, gap: bytes, expected: Outcome)
    | Piece(x: bytes, kind: byte, body: nat, gap: bytes, units: nat, expected: Outcome, rest: Pieces)

  function PiecesBytes(ps: Pieces): (b: bytes)
  {
    match ps
    case End(tail) => tail
    case LastPiece(x, _, _, gap, _) => x + gap
    case Piece(x, _, _, gap, _, _, rest) => x + gap + PiecesBytes(rest)
  }

  ghost predicate PiecesFit(ps: Pieces)
  {
    match ps
    case End(tail) => EndsSections(tail)
    case LastPiece(x, kind, body, gap, _) => SectionSays(x, kind, body) && CutShort(|x|, |gap|, 4)
    case Piece(x, kind, body, gap, units, _, rest) =>
      SectionSays(x, kind, body) && |gap| < 4 && |x| + |gap| == 4 * units && PiecesFit(rest)
  }

  /** The pieces lie one after another in `b` from unit `at` to its end. */
  ghost predicate LaidOut(ps: Pieces, b: bytes, at: nat)
  {
    match ps
    case End(tail) => At(b, 4 * at, tail) && 4 * at + |tail| == |b|
    case LastPiece(x, _, _, gap, _) => At(b, 4 * at, x) && 4 * at + |x| + |gap| == |b|
    case Piece(x, _, _, gap, units, _, rest) => At(b, 4 * at, x) && LaidOut(rest, b, at + units)
  }

  lemma InTheMiddle(before: bytes, x: bytes, after: bytes, b: bytes)
    requires b == before + x + after
    ensures At(b, |before|, x)
  {
  }

  lemma Regroup(before: bytes, x: bytes, gap: bytes, after: bytes)
    ensures before + (x + gap + after) == before + x + (gap + after) == before + x + gap + after
  {
  }

  ghost predicate PiecesTile(ps: Pieces)
  {
    ps.Piece? ==> |ps.x| + |ps.gap| == 4 * ps.units && PiecesTile(ps.rest)
  }

  lemma {:induction false} PiecesFitTile(ps: Pieces)
    requires PiecesFit(ps)
    ensures PiecesTile(ps)
  {
    if ps.Piece? {
      PiecesFitTile(ps.rest);
    }
  }

  lemma {:induction false} LayOut(ps: Pieces, before: bytes, at: nat)
    requires PiecesTile(ps) && |before| == 4 * at
    ensures LaidOut(ps, before + PiecesBytes(ps), at)
  {
    var b := before + PiecesBytes(ps);
    match ps
    case End(tail) => InTheMiddle(before, tail, [], b);
    case LastPiece(x, _, _, gap, _) => InTheMiddle(before, x, gap, b);
    case Piece(x, _, _, gap, units, _, rest) =>
      Regroup(before, x, gap, PiecesBytes(rest));
      InTheMiddle(before, x, gap + PiecesBytes(rest), b);
      LayOut(rest, before + x + gap, at + units);
  }

  /** Where the sections of a stream lie when it is laid out from unit `at` on. */
  function PiecesLayout(ps: Pieces, at: nat): (items: Stream<SectionAt>)
  {
    match ps
    case End(_) => Stop
    case LastPiece(x, kind, body, _, _) => Yield(SectionAt(4 * at, kind, |x|, body), Stop)
    case Piece(x, kind, body, _, units, _, rest) => Yield(SectionAt(4 * at, kind, |x|, body), PiecesLayout(rest, at + units))
  }

  /** From unit `at` on, `walk` takes the pieces one after another. */
  ghost predicate WalksSections(walk: nat -> Stream<SectionAt>, ps: Pieces, at: nat)
  {
    match ps
    case End(_) => walk(at) == Stop
    case LastPiece(x, kind, body, _, _) => walk(at) == Yield(SectionAt(4 * at, kind, |x|, body), Stop)
    case Piece(x, kind, body, _, units, _, rest) =>
      && walk(at) == Yield(SectionAt(4 * at, kind, |x|, body), walk(at + units))
      && WalksSections(walk, rest, at + units)
  }

  lemma {:induction false} SectionWalkYieldsLayout(walk: nat -> Stream<SectionAt>, ps: Pieces, at: nat)
    requires WalksSections(walk, ps, at)
    ensures walk(at) == PiecesLayout(ps, at)
  {
    if ps.Piece? {
      SectionWalkYieldsLayout(walk, ps.rest, at + ps.units);
    }
  }

  function SectionWalk(b: bytes): (walk: nat -> Stream<SectionAt>)
  {
    (at: nat) => SectionsFrom(b, 4 * at)
  }

  lemma {:induction false} SectionWalkWalks(ps: Pieces, b: bytes, at: nat)
    requires LaidOut(ps, b, at) && PiecesFit(ps)
    ensures WalksSections(SectionWalk(b), ps, at)
    decreases ps
  {
    match ps
    case End(tail) => StreamEnds(tail, b, 4 * at);
    case LastPiece(x, kind, body, gap, _) => SectionThenNothing(x, kind, body, |gap|, b, at);
    case Piece(x, kind, body, gap, units, _, rest) =>
      SectionWalkWalks(rest, b, at + units);
      SectionThenRest(x, kind, body, |gap|, units, b, at);
  }

  /** The section iterator inverts the layout of any section stream. */
  lemma SectionsInvertLayout(ps: Pieces)
    requires PiecesFit(ps)
    ensures LaidOut(ps, PiecesBytes(ps), 0)
    ensures SectionsFrom(PiecesBytes(ps), 0) == PiecesLayout(ps, 0)
  {
    PiecesFitTile(ps);
    LayOut(ps, [], 0);
    assert [] + PiecesBytes(ps) == PiecesBytes(ps);
    SectionWalkWalks(ps, PiecesBytes(ps), 0);
    SectionWalkYieldsLayout(SectionWalk(PiecesBytes(ps)), ps, 0);
  }

  function PiecesOutcome(ps: Pieces): (r: Outcome)
  {
    match ps
    case End(_) => NotFound
    case LastPiece(_, _, _, _, expected) => expected
    case Piece(_, _, _, _, _, expected, rest) => if expected.NotFound? then PiecesOutcome(rest) else expected
  }

  ghost predicate PiecesSearched(lz: Codec, ps: Pieces, guid: bytes, depth: nat)
  {
    match ps
    case End(_) => true
    case LastPiece(x, kind, body, _, expected) => SearchSection(lz, x, kind, body, guid, depth) == expected
    case Piece(x, kind, body, _, _, expected, rest) =>
      SearchSection(lz, x, kind, body, guid, depth) == expected && PiecesSearched(lz, rest, guid, depth)
  }

  lemma SearchItemsStep(lz: Codec, b: bytes, x: bytes, it: SectionAt, rest: Stream<SectionAt>, guid: bytes, depth: nat)
    requires At(b, it.at, x) && it.size == |x|
    ensures var first := SearchSection(lz, x, it.kind, it.body, guid, depth);
            SearchItems(lz, b, Yield(it, rest), guid, depth) ==
              if first.NotFound? then SearchItems(lz, b, rest, guid, depth) else first
  {
  }

  lemma SearchSettles(lz: Codec, b: bytes, x: bytes, it: SectionAt, rest: Stream<SectionAt>, guid: bytes, depth: nat,
                      first: Outcome, others: Outcome)
    requires At(b, it.at, x) && it.size == |x| && SearchSection(lz, x, it.kind, it.body, guid, depth) == first
    requires SearchItems(lz, b, rest, guid, depth) == others
    ensures SearchItems(lz, b, Yield(it, rest), guid, depth) == if first.NotFound? then others else first
  {
    SearchItemsStep(lz, b, x, it, rest, guid, depth);
  }

  lemma {:induction false} SearchPieces(lz: Codec, ps: Pieces, b: bytes, at: nat, guid: bytes, depth: nat)
    requires LaidOut(ps, b, at) && PiecesSearched(lz, ps, guid, depth)
    ensures SearchItems(lz, b, PiecesLayout(ps, at), guid, depth) == PiecesOutcome(ps)
    decreases ps
  {
    match ps
    case End(_) =>
    case LastPiece(x, kind, body, gap, expected) =>
      SearchSettles(lz, b, x, SectionAt(4 * at, kind, |x|, body), Stop, guid, depth, expected, NotFound);
    case Piece(x, kind, body, gap, units, expected, rest) =>
      SearchPieces(lz, rest, b, at + units, guid, depth);
      SearchSettles(lz, b, x, SectionAt(4 * at, kind, |x|, body), PiecesLayout(rest, at + units), guid, depth,
                    expected, PiecesOutcome(rest));
  }

  function ToPieces(ss: Sections, guid: bytes): (ps: Pieces)
  {
    match ss
    case Done(tail) => End(tail)
    case Last(head, gap) =>
      LastPiece(SectionBytes(head), Kind(head), BodyOffset(head), gap, FirstShell(SectionImages(head, guid)))
    case More(head, gap, rest) =>
      Piece(SectionBytes(head), Kind(head), BodyOffset(head), gap, (|SectionBytes(head)| + |gap|) / 4,
            FirstShell(SectionImages(head, guid)), ToPieces(rest, guid))
  }

  lemma {:induction false} PiecesOfSections(lz: Codec, ss: Sections, guid: bytes)
    requires SectionsOk(lz, ss)
    ensures PiecesBytes(ToPieces(ss, guid)) == SectionsBytes(ss)
    ensures PiecesFit(ToPieces(ss, guid))
  {
    match ss
    case Done(_) =>
    case Last(head, _) => SectionBytesSay(head);
    case More(head, _, rest) =>
      SectionBytesSay(head);
      PiecesOfSections(lz, rest, guid);
  }

  lemma {:induction false} PiecesShow(ss: Sections, guid: bytes)
    ensures PiecesOutcome(ToPieces(ss, guid)) == FirstShell(Images(ss, guid))
  {
    if ss.More? {
      PiecesShow(ss.rest, guid);
      FirstShellConcat(SectionImages(ss.head, guid), Images(ss.rest, guid));
    }
  }

  // --- Files --------------------------------------------------------------------------------------------

  /** `x` is one whole file with the given name and type whose data starts at offset `header`. */
  ghost predicate FileSays(x: bytes, name: bytes, kind: byte, header: nat)
  {
    && (header == 24 || header == 32) && header <= |x|
    && x[..16] == name && x[18] == kind && (x[19] % 2 == 1 <==> header == 32)
    && (if header == 32 then Load(x, 24, 8) == |x| else Load(x, 20, 3) == |x| && |x| != WIDE)
  }

  /** A file is yielded unless it is padding. */
  function OneFile(it: FileAt, rest: Stream<FileAt>): (s: Stream<FileAt>)
  {
    if Hidden(it.name, it.kind) then rest else Yield(it, rest)
  }

  lemma FileRead(x: bytes, name: bytes, kind: byte, header: nat, b: bytes, pos: nat)
    requires FileSays(x, name, kind, header) && At(b, pos, x)
    ensures ReadFile(b, pos) == Item(FileAt(pos, name, kind, |x|, header))
  {
    SliceShift(b, pos, x, 0, 16);
    ByteShift(b, pos, x, 18);
    ByteShift(b, pos, x, 19);
    LoadShift(b, pos, x, 20, 3);
    if header == 32 {
      LoadShift(b, pos, x, 24, 8);
    }
  }

  lemma FileBytesSay(f: File)
    requires FileFits(f)
    ensures FileSays(FileBytes(f), Name(f), FileKind(f), |f.head|)
    ensures FileBytes(f)[|f.head|..] == FileContent(f)
  {
    var x := FileBytes(f);
    assert At(x, 0, f.head);
    SliceShift(x, 0, f.head, 0, 16);
    LoadShift(x, 0, f.head, 20, 3);
    if |f.head| == 32 {
      LoadShift(x, 0, f.head, 24, 8);
    }
  }

  function FileKind(f: File): (k: byte)
  {
    if |f.head| > 18 then f.head[18] else 0
  }

  lemma FilesEnd(tail: bytes, b: bytes, pos: nat)
    requires At(b, pos, tail) && pos + |tail| == |b| && EndsFiles(tail)
    ensures FilesFrom(b, pos) == Stop
  {
    if |tail| >= 24 {
      LoadShift(b, pos, tail, 20, 3);
      ByteShift(b, pos, tail, 19);
      if |tail| >= 32 {
        LoadShift(b, pos, tail, 24, 8);
      }
    }
  }

  lemma FileThenRest(x: bytes, name: bytes, kind: byte, header: nat, gap: nat, units: nat, b: bytes, at: nat)
    requires At(b, 8 * at, x) && FileSays(x, name, kind, header) && gap < 8 && |x| + gap == 8 * units
    ensures FilesFrom(b, 8 * at) == OneFile(FileAt(8 * at, name, kind, |x|, header), FilesFrom(b, 8 * (at + units)))
  {
    FileRead(x, name, kind, header, b, 8 * at);
    YieldedUnlessHidden(name, kind);
    Round8(at, |x|, gap, units);
  }

  lemma FileThenNothing(x: bytes, name: bytes, kind: byte, header: nat, gap: nat, b: bytes, at: nat)
    requires At(b, 8 * at, x) && 8 * at + |x| + gap == |b|
    requires FileSays(x, name, kind, header) && CutShort(|x|, gap, 8)
    ensures FilesFrom(b, 8 * at) == OneFile(FileAt(8 * at, name, kind, |x|, header), Stop)
  {
    FileRead(x, name, kind, header, b, 8 * at);
    YieldedUnlessHidden(name, kind);
    AlignFrom8(8 * at, |x|);
  }

  /** The files of a volume as a flat list, likewise, in 8-byte units; what is searched is the file's data. */
  datatype FilePieces =
    | NoMore(tail: bytes)
    | LastFilePiece(x: bytes, name: bytes, kind: byte, header: nat, gap: bytes, expected: Outcome)
    | FilePiece(x: bytes, name: bytes, kind: byte, header: nat, gap: bytes, units: nat, expected: Outcome, rest: FilePieces)

  function FilePiecesBytes(fs: FilePieces): (b: bytes)
  {
    match fs
    case NoMore(tail) => tail
    case LastFilePiece(x, _, _, _, gap, _) => x + gap
    case FilePiece(x, _, _, _, gap, _, _, rest) => x + gap + FilePiecesBytes(rest)
  }

  ghost predicate FilePiecesFit(fs: FilePieces)
  {
    match fs
    case NoMore(tail) => EndsFiles(tail)
    case LastFilePiece(x, name, kind, header, gap, _) => FileSays(x, name, kind, header) && CutShort(|x|, |gap|, 8)
    case FilePiece(x, name, kind, header, gap, units, _, rest) =>
      FileSays(x, name, kind, header) && |gap| < 8 && |x| + |gap| == 8 * units && FilePiecesFit(rest)
  }

  ghost predicate FilesLaidOut(fs: FilePieces, b: bytes, at: nat)
  {
    match fs
    case NoMore(tail) => At(b, 8 * at, tail) && 8 * at + |tail| == |b|
    case LastFilePiece(x, _, _, _, gap, _) => At(b, 8 * at, x) && 8 * at + |x| + |gap| == |b|
    case FilePiece(x, _, _, _, _, units, _, rest) => At(b, 8 * at, x) && FilesLaidOut(rest, b, at + units)
  }

  ghost predicate FilePiecesTile(fs: FilePieces)
  {
    fs.FilePiece? ==> |fs.x| + |fs.gap| == 8 * fs.units && FilePiecesTile(fs.rest)
  }

  lemma {:induction false} FilePiecesFitTile(fs: FilePieces)
    requires FilePiecesFit(fs)
    ensures FilePiecesTile(fs)
  {
    if fs.FilePiece? {
      FilePiecesFitTile(fs.rest);
    }
  }

  lemma {:induction false} LayOutFiles(fs: FilePieces, before: bytes, at: nat)
    requires FilePiecesTile(fs) && |before| == 8 * at
    ensures FilesLaidOut(fs, before + FilePiecesBytes(fs), at)
  {
    var b := before + FilePiecesBytes(fs);
    match fs
    case NoMore(tail) => InTheMiddle(before, tail, [], b);
    case LastFilePiece(x, _, _, _, gap, _) => InTheMiddle(before, x, gap, b);
    case FilePiece(x, _, _, _, gap, units, _, rest) =>
      Regroup(before, x, gap, FilePiecesBytes(rest));
      InTheMiddle(before, x, gap + FilePiecesBytes(rest), b);
      LayOutFiles(rest, before + x + gap, at + units);
  }

  /** Where the files that are yielded lie when the list is laid out from unit `at` on. */
  function FilePiecesLayout(fs: FilePieces, at: nat): (items: Stream<FileAt>)
  {
    match fs
    case NoMore(_) => Stop
    case LastFilePiece(x, name, kind, header, _, _) => OneFile(FileAt(8 * at, name, kind, |x|, header), Stop)
    case FilePiece(x, name, kind, header, _, units, _, rest) =>
      OneFile(FileAt(8 * at, name, kind, |x|, header), FilePiecesLayout(rest, at + units))
  }

  /** From unit `at` on, `walk` takes the pieces one after another. */
  ghost predicate WalksFiles(walk: nat -> Stream<FileAt>, fs: FilePieces, at: nat)
  {
    match fs
    case NoMore(_) => walk(at) == Stop
    case LastFilePiece(x, name, kind, header, _, _) => walk(at) == OneFile(FileAt(8 * at, name, kind, |x|, header), Stop)
    case FilePiece(x, name, kind, header, _, units, _, rest) =>
      && walk(at) == OneFile(FileAt(8 * at, name, kind, |x|, header), walk(at + units))
      && WalksFiles(walk, rest, at + units)
  }

  lemma {:induction false} WalkYieldsLayout(walk: nat -> Stream<FileAt>, fs: FilePieces, at: nat)
    requires WalksFiles(walk, fs, at)
    ensures walk(at) == FilePiecesLayout(fs, at)
  {
    if fs.FilePiece? {
      WalkYieldsLayout(walk, fs.rest, at + fs.units);
    }
  }

  function FileWalk(b: bytes): (walk: nat -> Stream<FileAt>)
  {
    (at: nat) => FilesFrom(b, 8 * at)
  }

  lemma {:induction false} FileWalkWalks(fs: FilePieces, b: bytes, at: nat)
    requires FilesLaidOut(fs, b, at) && FilePiecesFit(fs)
    ensures WalksFiles(FileWalk(b), fs, at)
    decreases fs
  {
    match fs
    case NoMore(tail) => FilesEnd(tail, b, 8 * at);
    case LastFilePiece(x, name, kind, header, gap, _) => FileThenNothing(x, name, kind, header, |gap|, b, at);
    case FilePiece(x, name, kind, header, gap, units, _, rest) =>
      FileWalkWalks(rest, b, at + units);
      FileWalkStep(x, name, kind, header, |gap|, units, b, at);
  }

  lemma FileWalkStep(x: bytes, name: bytes, kind: byte, header: nat, gap: nat, units: nat, b: bytes, at: nat)
    requires At(b, 8 * at, x) && FileSays(x, name, kind, header) && gap < 8 && |x| + gap == 8 * units
    ensures FileWalk(b)(at) == OneFile(FileAt(8 * at, name, kind, |x|, header), FileWalk(b)(at + units))
  {
    FileThenRest(x, name, kind, header, gap, units, b, at);
  }

  /** The file iterator inverts the layout of any list of files, minus padding and erased names. */
  lemma FilesInvertLayout(fs: FilePieces, b: bytes, at: nat)
    requires FilesLaidOut(fs, b, at) && FilePiecesFit(fs)
    ensures FilesFrom(b, 8 * at) == FilePiecesLayout(fs, at)
  {
    FileWalkWalks(fs, b, at);
    WalkYieldsLayout(FileWalk(b), fs, at);
  }

  function OneOutcome(name: bytes, kind: byte, expected: Outcome, others: Outcome): (r: Outcome)
  {
    if !Hidden(name, kind) && !expected.NotFound? then expected else others
  }

  function FilePiecesOutcome(fs: FilePieces): (r: Outcome)
  {
    match fs
    case NoMore(_) => NotFound
    case LastFilePiece(_, name, kind, _, _, expected) => OneOutcome(name, kind, expected, NotFound)
    case FilePiece(_, name, kind, _, _, _, expected, rest) => OneOutcome(name, kind, expected, FilePiecesOutcome(rest))
  }

  ghost predicate FileSearched(lz: Codec, x: bytes, name: bytes, kind: byte, header: nat, expected: Outcome, depth: nat)
  {
    header <= |x| && (!Hidden(name, kind) ==> SearchSections(lz, x[header..], name, depth) == expected)
  }

  ghost predicate FilePiecesSearched(lz: Codec, fs: FilePieces, depth: nat)
  {
    match fs
    case NoMore(_) => true
    case LastFilePiece(x, name, kind, header, _, expected) => FileSearched(lz, x, name, kind, header, expected, depth)
    case FilePiece(x, name, kind, header, _, _, expected, rest) =>
      FileSearched(lz, x, name, kind, header, expected, depth) && FilePiecesSearched(lz, rest, depth)
  }

  lemma SearchFilesStep(lz: Codec, b: bytes, x: bytes, it: FileAt, rest: Stream<FileAt>, expected: Outcome, depth: nat)
    requires At(b, it.at, x) && it.size == |x|
    requires FileSearched(lz, x, it.name, it.kind, it.header, expected, depth)
    ensures SearchFiles(lz, b, OneFile(it, rest), depth) ==
            OneOutcome(it.name, it.kind, expected, SearchFiles(lz, b, rest, depth))
  {
    SliceShift(b, it.at, x, it.header, |x|);
    assert Slice(b, it.at + it.header, it.at + it.size) == x[it.header..];
  }

  lemma {:induction false} SearchFilePieces(lz: Codec, fs: FilePieces, b: bytes, at: nat, depth: nat)
    requires FilesLaidOut(fs, b, at) && FilePiecesSearched(lz, fs, depth)
    ensures SearchFiles(lz, b, FilePiecesLayout(fs, at), depth) == FilePiecesOutcome(fs)
    decreases fs
  {
    match fs
    case NoMore(_) =>
    case LastFilePiece(x, name, kind, header, gap, expected) =>
      SearchFilesStep(lz, b, x, FileAt(8 * at, name, kind, |x|, header), Stop, expected, depth);
    case FilePiece(x, name, kind, header, gap, units, expected, rest) =>
      SearchFilePieces(lz, rest, b, at + units, depth);
      SearchFilesStep(lz, b, x, FileAt(8 * at, name, kind, |x|, header), FilePiecesLayout(rest, at + units), expected, depth);
  }

  function ToFilePieces(fs: FileList): (ps: FilePieces)
  {
    match fs
    case NoFiles(tail) => NoMore(tail)
    case LastFile(head, gap) =>
      LastFilePiece(FileBytes(head), Name(head), FileKind(head), |head.head|, gap, FirstShell(ImagesOfFile(head)))
    case AndFile(head, gap, rest) =>
      FilePiece(FileBytes(head), Name(head), FileKind(head), |head.head|, gap, (|FileBytes(head)| + |gap|) / 8,
                FirstShell(ImagesOfFile(head)), ToFilePieces(rest))
  }

  lemma {:induction false} PiecesOfFiles(lz: Codec, fs: FileList)
    requires FilesOk(lz, fs)
    ensures FilePiecesBytes(ToFilePieces(fs)) == FilesBytes(fs)
    ensures FilePiecesFit(ToFilePieces(fs))
  {
    match fs
    case NoFiles(_) =>
    case LastFile(head, _) => FileBytesSay(head);
    case AndFile(head, _, rest) =>
      FileBytesSay(head);
      PiecesOfFiles(lz, rest);
  }

  lemma {:induction false} FilePiecesShow(lz: Codec, fs: FileList)
    requires FilesOk(lz, fs)
    ensures FilePiecesOutcome(ToFilePieces(fs)) == FirstShell(FileImages(fs))
  {
    match fs
    case NoFiles(_) =>
    case LastFile(_, _) =>
    case AndFile(head, _, rest) =>
      FilePiecesShow(lz, rest);
      FirstShellConcat(ImagesOfFile(head), FileImages(rest));
  }

  lemma DataStartRead(header: bytes, b: bytes)
    requires At(b, 0, header) && HeaderOk(header)
    ensures |b| >= 0x40 && DataStart(b) == Some(|header|)
  {
    LoadShift(b, 0, header, 52, 2);
    LoadShift(b, 0, header, 48, 2);
    var ext := Load(header, 52, 2);
    if ext != 0 {
      LoadShift(b, 0, header, ext + 16, 4);
    }
  }

  lemma HeaderRead(header: bytes, files: bytes)
    requires HeaderOk(header)
    ensures FirmwareVolume.Files(header + files) == FilesFrom(header + files, |header|)
  {
    var b := header + files;
    assert At(b, 0, header);
    SliceShift(b, 0, header, 40, 44);
    DataStartRead(header, b);
  }

  /** The walk over a volume yields its files where they were laid out. */
  lemma VolumeInvertsLayout(header: bytes, fs: FilePieces, at: nat)
    requires HeaderOk(header) && FilePiecesFit(fs) && |header| == 8 * at
    ensures FilesLaidOut(fs, header + FilePiecesBytes(fs), at)
    ensures FirmwareVolume.Files(header + FilePiecesBytes(fs)) == FilePiecesLayout(fs, at)
  {
    HeaderRead(header, FilePiecesBytes(fs));
    FilePiecesFitTile(fs);
    LayOutFiles(fs, header, at);
    FilesInvertLayout(fs, header + FilePiecesBytes(fs), at);
  }

  /**
    Erased flash is all ones, attributes included, so the walk takes it for a
    large file: it ends quietly on fewer than 24 or at least 32 bytes of it, and
    raises on 24 to 31.
   */
  lemma ErasedTail(b: bytes, pos: nat)
    requires pos <= |b| < 0xFFFF_FFFF_FFFF_FFFF && b[pos..] == seq(|b| - pos, _ => 0xFF)
    ensures FilesFrom(b, pos) == if 24 <= |b| - pos < 32 then Raise else Stop
  {
    var tail := b[pos..];
    if |tail| >= 24 {
      assert b[pos + 19] == tail[19] == 0xFF;
      if |tail| >= 32 {
        AllOnes(8);
        assert b[pos + 24..pos + 32] == seq(8, _ => 0xFF);
        WordSizes();
      }
    }
  }

  lemma {:induction false} AllOnes(n: nat)
    ensures FromLE(seq(n, _ => 0xFF)) == Pow256(n) - 1
  {
    if n > 0 {
      AllOnes(n - 1);
      assert seq(n, _ => 0xFF)[1..] == seq(n - 1, _ => 0xFF);
    }
  }

  // --- The search finds what the tree shows ----------------------------------------------------------------

  lemma GuidedRead(codec: bytes, attrs: nat, extra: bytes, data: bytes, head: bytes)
    requires |head| == 4 && |codec| == 16 && attrs < 0x1_0000 && 24 + |extra| < 0x1_0000
    ensures var x := head + GuidedPayload(codec, attrs, extra, data);
            && |x| >= 24 && x[4..20] == codec
            && Load(x, 20, 2) == 24 + |extra| && Load(x, 22, 2) == attrs
            && Tail(x, 24 + |extra|) == data
  {
    var off, at := ToLE(24 + |extra|, 2), ToLE(attrs, 2);
    GuidedParts(head, codec, off, at, extra, data);
    WordSizes();
    StoreThenLoad(24 + |extra|, 2);
    StoreThenLoad(attrs, 2);
  }

  lemma GuidedParts(head: bytes, codec: bytes, off: bytes, at: bytes, extra: bytes, data: bytes)
    requires |head| == 4 && |codec| == 16 && |off| == 2 && |at| == 2
    ensures var x := head + (codec + off + at + extra + data);
      x[4..20] == codec && x[20..22] == off && x[22..24] == at && x[24 + |extra|..] == data
  {
  }

  /** A GUIDED section is searched through the stream it unwraps to. */
  lemma GuidedSearch(lz: Codec, x: bytes, codec: bytes, attrs: nat, extra: bytes, data: bytes, guid: bytes, depth: nat)
    requires |codec| == 16 && attrs < 0x1_0000 && 24 + |extra| < 0x1_0000
    requires |x| >= 4 && x == x[..4] + GuidedPayload(codec, attrs, extra, data)
    ensures SearchSection(lz, x, SECTION_GUID_DEFINED, 4, guid, depth) ==
            match Unwrap(lz, codec, attrs, data)
            case None => NotFound
            case Some(inner) => SearchSections(lz, inner, guid, depth)
  {
    GuidedRead(codec, attrs, extra, data, x[..4]);
  }

  lemma PlainSearch(lz: Codec, x: bytes, length: bytes, scheme: byte, data: bytes, guid: bytes, depth: nat)
    requires |length| == 4 && |x| >= 4 && x == x[..4] + (length + [scheme] + data)
    ensures SearchSection(lz, x, SECTION_COMPRESSION, 4, guid, depth) ==
            if scheme == 0 then SearchSections(lz, data, guid, depth) else NotFound
  {
    assert x[9..] == data;
  }

  lemma SectionShape(s: Section)
    ensures |SectionBytes(s)| >= BodyOffset(s) && Tail(SectionBytes(s), BodyOffset(s)) == Payload(s)
    ensures !IsWide(s) ==> SectionBytes(s) == SectionBytes(s)[..4] + Payload(s)
  {
  }

  lemma {:induction false} SearchSectionFinds(lz: Codec, s: Section, guid: bytes, depth: nat)
    requires SectionOk(lz, s) && SectionDepth(s) <= depth
    ensures SearchSection(lz, SectionBytes(s), Kind(s), BodyOffset(s), guid, depth) == FirstShell(SectionImages(s, guid))
    decreases s, 1
  {
    var x := SectionBytes(s);
    SectionShape(s);
    match s
    case Executable(_, _, _) =>
    case Lzma(attrs, extra, packed, inner) =>
      GuidedSearch(lz, x, LZMA_GUID, attrs, extra, packed, guid, depth);
      SearchSectionsFinds(lz, inner, guid, depth);
    case Raw(codec, attrs, extra, inner) =>
      GuidedSearch(lz, x, codec, attrs, extra, SectionsBytes(inner), guid, depth);
      SearchSectionsFinds(lz, inner, guid, depth);
    case Undecodable(codec, attrs, extra, packed) =>
      GuidedSearch(lz, x, codec, attrs, extra, packed, guid, depth);
    case Uncompressed(length, inner) =>
      PlainSearch(lz, x, length, 0, SectionsBytes(inner), guid, depth);
      SearchSectionsFinds(lz, inner, guid, depth);
    case Compressed(length, scheme, packed) =>
      PlainSearch(lz, x, length, scheme, packed, guid, depth);
    case VolumeImage(_, volume) =>
      SearchVolumeFinds(lz, volume, depth);
    case Other(_, _, _) =>
  }

  lemma SearchStreamPieces(lz: Codec, ps: Pieces, guid: bytes, depth: nat)
    requires depth > 0 && PiecesFit(ps) && PiecesSearched(lz, ps, guid, depth - 1)
    ensures SearchSections(lz, PiecesBytes(ps), guid, depth) == PiecesOutcome(ps)
  {
    SectionsInvertLayout(ps);
    SearchPieces(lz, ps, PiecesBytes(ps), 0, guid, depth - 1);
  }

  lemma {:induction false} SearchSectionsFinds(lz: Codec, ss: Sections, guid: bytes, depth: nat)
    requires SectionsOk(lz, ss) && ItemsDepth(ss) < depth
    ensures SearchSections(lz, SectionsBytes(ss), guid, depth) == FirstShell(Images(ss, guid))
    decreases ss, 3
  {
    PiecesOfSections(lz, ss, guid);
    SectionsAllFind(lz, ss, guid, depth - 1);
    SearchStreamPieces(lz, ToPieces(ss, guid), guid, depth);
    PiecesShow(ss, guid);
  }

  lemma {:induction false} SectionsAllFind(lz: Codec, ss: Sections, guid: bytes, depth: nat)
    requires SectionsOk(lz, ss) && ItemsDepth(ss) <= depth
    ensures PiecesSearched(lz, ToPieces(ss, guid), guid, depth)
    decreases ss, 2
  {
    match ss
    case Done(_) =>
    case Last(head, _) => SearchSectionFinds(lz, head, guid, depth);
    case More(head, _, rest) =>
      SearchSectionFinds(lz, head, guid, depth);
      SectionsAllFind(lz, rest, guid, depth);
  }

  lemma SearchVolumePieces(lz: Codec, b: bytes, fs: FilePieces, at: nat, depth: nat)
    requires depth > 0 && FilePiecesSearched(lz, fs, depth - 1)
    requires FilesLaidOut(fs, b, at) && FirmwareVolume.Files(b) == FilePiecesLayout(fs, at)
    ensures SearchVolume(lz, b, depth) == FilePiecesOutcome(fs)
  {
    SearchFilePieces(lz, fs, b, at, depth - 1);
  }

  lemma VolumeWalk(lz: Codec, v: Volume) returns (at: nat)
    requires VolumeOk(lz, v)
    ensures FilesLaidOut(ToFilePieces(v.files), VolumeBytes(v), at)
    ensures FirmwareVolume.Files(VolumeBytes(v)) == FilePiecesLayout(ToFilePieces(v.files), at)
  {
    at := |v.header| / 8;
    PiecesOfFiles(lz, v.files);
    VolumeInvertsLayout(v.header, ToFilePieces(v.files), at);
  }

  /**
    Searching the layout of any volume returns exactly the first executable, in
    document order, whose innermost enclosing file is the Shell, and nothing
    exactly when there is none.
   */
  lemma {:induction false} SearchVolumeFinds(lz: Codec, v: Volume, depth: nat)
    requires VolumeOk(lz, v) && FilesDepth(v.files) < depth
    ensures SearchVolume(lz, VolumeBytes(v), depth) == FirstShell(FileImages(v.files))
    decreases v, 3
  {
    FilesAllFind(lz, v.files, depth - 1);
    VolumeOutcome(lz, v, depth);
    FilePiecesShow(lz, v.files);
  }

  lemma VolumeOutcome(lz: Codec, v: Volume, depth: nat)
    requires VolumeOk(lz, v) && depth > 0 && FilePiecesSearched(lz, ToFilePieces(v.files), depth - 1)
    ensures SearchVolume(lz, VolumeBytes(v), depth) == FilePiecesOutcome(ToFilePieces(v.files))
  {
    var at := VolumeWalk(lz, v);
    SearchVolumePieces(lz, VolumeBytes(v), ToFilePieces(v.files), at, depth);
  }

  lemma {:induction false} FilesAllFind(lz: Codec, fs: FileList, depth: nat)
    requires FilesOk(lz, fs) && FilesDepth(fs) <= depth
    ensures FilePiecesSearched(lz, ToFilePieces(fs), depth)
    decreases fs, 2
  {
    match fs
    case NoFiles(_) =>
    case LastFile(head, _) => FileFinds(lz, head, depth);
    case AndFile(head, _, rest) =>
      FilesAllFind(lz, rest, depth);
      FileFinds(lz, head, depth);
  }

  lemma {:induction false} FileFinds(lz: Codec, f: File, depth: nat)
    requires FileOk(lz, f) && FileDepth(f) <= depth
    ensures FileSearched(lz, FileBytes(f), Name(f), FileKind(f), |f.head|, FirstShell(ImagesOfFile(f)), depth)
    decreases f, 4
  {
    FileBytesSay(f);
    if f.Real? {
      SearchSectionsFinds(lz, f.content, Name(f), depth);
    }
  }

  // --- Whole images --------------------------------------------------------------------------------------------

  /**
    Volumes with the bytes before and the padding after each, how many steps of
    the scan and 8-byte units these take, and what searching each should find.
   */
  datatype VolumePieces =
    | NoVolume(tail: bytes)
    | VolumePiece(gap: bytes, steps: nat, x: bytes, pad: bytes, units: nat, expected: Outcome, rest: VolumePieces)

  function VolumePiecesBytes(ps: VolumePieces): (b: bytes)
  {
    match ps
    case NoVolume(tail) => tail
    case VolumePiece(gap, _, x, pad, _, _, rest) => gap + x + pad + VolumePiecesBytes(rest)
  }

  /** `x` is one whole volume: signed, announcing its own length and a plausible header length. */
  ghost predicate VolumeSays(x: bytes)
  {
    |x| >= 0x40 && x[40..44] == FVH_SIGNATURE && Load(x, 32, 8) == |x| && 0x48 <= Load(x, 48, 2) <= |x|
  }

  /** Gaps are whole steps of the scan; padding reaches the next boundary, unless the image ends before it. */
  ghost predicate VolumePiecesFit(ps: VolumePieces)
  {
    match ps
    case NoVolume(_) => true
    case VolumePiece(gap, steps, x, pad, units, _, rest) =>
      && VolumeSays(x) && |gap| == 16 * steps && VolumePiecesFit(rest)
      && |x| + |pad| <= 8 * units < |x| + 8 && (|x| + |pad| == 8 * units || rest == NoVolume([]))
  }

  /** The pieces lie in `d` from 8-byte unit `at` on. */
  ghost predicate VolumesLaidOut(ps: VolumePieces, d: bytes, at: nat)
  {
    match ps
    case NoVolume(tail) => 8 * at + |tail| >= |d|
    case VolumePiece(_, steps, x, _, units, _, rest) =>
      At(d, 8 * (at + 2 * steps), x) && VolumesLaidOut(rest, d, at + 2 * steps + units)
  }

  /** A volume header: signed, with a plausible header length and a length that fits what follows. */
  predicate Plausible(d: bytes, pos: nat)
    requires pos + 0x40 <= |d|
  {
    && d[pos + 40..pos + 44] == FVH_SIGNATURE
    && 0x48 <= Load(d, pos + 48, 2) <= Load(d, pos + 32, 8) <= |d| - pos
  }

  /** None of the scan's first `steps` steps from `pos` on meets a plausible volume header. */
  ghost predicate Quiet(d: bytes, pos: nat, steps: nat)
    decreases steps
  {
    steps > 0 ==> (pos + 0x40 <= |d| ==> !Plausible(d, pos)) && Quiet(d, pos + 16, steps - 1)
  }

  /** No plausible header where the scan steps through gaps and the tail. */
  ghost predicate QuietGaps(ps: VolumePieces, d: bytes, at: nat)
  {
    match ps
    case NoVolume(tail) => Quiet(d, 8 * at, |tail|)
    case VolumePiece(_, steps, _, _, units, _, rest) =>
      Quiet(d, 8 * at, steps) && QuietGaps(rest, d, at + 2 * steps + units)
  }

  lemma FourParts(before: bytes, gap: bytes, x: bytes, pad: bytes, rest: bytes)
    ensures before + (gap + x + pad + rest) == before + gap + x + pad + rest == (before + gap) + x + (pad + rest)
  {
  }

  lemma {:induction false} LayOutVolumes(ps: VolumePieces, before: bytes, at: nat)
    requires VolumePiecesFit(ps) && |before| == 8 * at
    ensures VolumesLaidOut(ps, before + VolumePiecesBytes(ps), at)
    decreases ps
  {
    if ps.VolumePiece? {
      var d, rest := before + VolumePiecesBytes(ps), VolumePiecesBytes(ps.rest);
      var next := before + ps.gap + ps.x + ps.pad;
      VolumeLies(before, ps.gap, ps.x, ps.pad, rest, d, at, ps.steps);
      if |ps.x| + |ps.pad| == 8 * ps.units {
        assert |next| == 8 * (at + 2 * ps.steps + ps.units);
        LayOutVolumes(ps.rest, next, at + 2 * ps.steps + ps.units);
      } else {
        assert 8 * (at + 2 * ps.steps + ps.units) >= |d|;
      }
    }
  }

  lemma VolumeLies(before: bytes, gap: bytes, x: bytes, pad: bytes, rest: bytes, d: bytes, at: nat, steps: nat)
    requires |before| == 8 * at && |gap| == 16 * steps && d == before + (gap + x + pad + rest)
    ensures At(d, 8 * (at + 2 * steps), x) && d == before + gap + x + pad + rest
  {
    FourParts(before, gap, x, pad, rest);
    InTheMiddle(before + gap, x, pad + rest, d);
    assert |before + gap| == 8 * (at + 2 * steps);
  }

  function VolumesLayout(ps: VolumePieces, at: nat): (s: Stream<VolumeAt>)
  {
    match ps
    case NoVolume(_) => Stop
    case VolumePiece(_, steps, x, _, units, _, rest) =>
      Yield(VolumeAt(8 * (at + 2 * steps), |x|), VolumesLayout(rest, at + 2 * steps + units))
  }

  lemma VolumeRead(x: bytes, d: bytes, pos: nat)
    requires VolumeSays(x) && At(d, pos, x)
    ensures pos + 0x40 <= |d| && VolumeHere(d, pos) == Some(VolumeAt(pos, |x|))
  {
    SliceShift(d, pos, x, 40, 44);
    LoadShift(d, pos, x, 32, 8);
    LoadShift(d, pos, x, 48, 2);
  }

  /** A quiet gap is stepped over. */
  lemma {:induction false} StepOver(d: bytes, pos: nat, steps: nat)
    requires Quiet(d, pos, steps) && pos + 16 * steps + 0x40 <= |d|
    ensures VolumesFrom(d, pos) == VolumesFrom(d, pos + 16 * steps)
    decreases steps
  {
    if steps > 0 {
      StepOver(d, pos + 16, steps - 1);
    }
  }

  /** A quiet tail has no volume. */
  lemma {:induction false} StepOut(d: bytes, pos: nat, steps: nat)
    requires Quiet(d, pos, steps) && pos + 16 * steps + 0x40 > |d|
    ensures VolumesFrom(d, pos) == Stop
    decreases steps
  {
    if steps > 0 && pos + 0x40 <= |d| {
      StepOut(d, pos + 16, steps - 1);
    }
  }

  lemma VolumeFound(x: bytes, pad: nat, units: nat, d: bytes, here: nat)
    requires VolumeSays(x) && At(d, 8 * here, x) && |x| + pad == 8 * units && pad < 8
    ensures 8 * here + 0x40 <= |d|
    ensures VolumesFrom(d, 8 * here) == Yield(VolumeAt(8 * here, |x|), VolumesFrom(d, 8 * (here + units)))
  {
    VolumeRead(x, d, 8 * here);
    Round8(here, |x|, pad, units);
  }

  /** The scan steps over the gap, finds the volume and goes on at the next boundary. */
  lemma ScanStep(steps: nat, x: bytes, pad: nat, units: nat, d: bytes, at: nat)
    requires Quiet(d, 8 * at, steps) && VolumeSays(x) && At(d, 8 * (at + 2 * steps), x)
    requires |x| + pad == 8 * units && pad < 8
    ensures VolumesFrom(d, 8 * at) ==
      Yield(VolumeAt(8 * (at + 2 * steps), |x|), VolumesFrom(d, 8 * (at + 2 * steps + units)))
  {
    VolumeFound(x, pad, units, d, at + 2 * steps);
    StepOver(d, 8 * at, steps);
    assert 8 * at + 16 * steps == 8 * (at + 2 * steps);
  }

  /** From unit `at` on, `walk` finds the volumes one after another. */
  ghost predicate WalksVolumes(walk: nat -> Stream<VolumeAt>, ps: VolumePieces, at: nat)
  {
    match ps
    case NoVolume(_) => walk(at) == Stop
    case VolumePiece(_, steps, x, _, units, _, rest) =>
      && walk(at) == Yield(VolumeAt(8 * (at + 2 * steps), |x|), walk(at + 2 * steps + units))
      && WalksVolumes(walk, rest, at + 2 * steps + units)
  }

  lemma {:induction false} VolumeWalkYieldsLayout(walk: nat -> Stream<VolumeAt>, ps: VolumePieces, at: nat)
    requires WalksVolumes(walk, ps, at)
    ensures walk(at) == VolumesLayout(ps, at)
  {
    if ps.VolumePiece? {
      VolumeWalkYieldsLayout(walk, ps.rest, at + 2 * ps.steps + ps.units);
    }
  }

  function VolumeScan(d: bytes): (walk: nat -> Stream<VolumeAt>)
  {
    (at: nat) => VolumesFrom(d, 8 * at)
  }

  lemma {:induction false} VolumeScanWalks(ps: VolumePieces, d: bytes, at: nat)
    requires VolumesLaidOut(ps, d, at) && VolumePiecesFit(ps) && QuietGaps(ps, d, at)
    ensures WalksVolumes(VolumeScan(d), ps, at)
    decreases ps
  {
    match ps
    case NoVolume(tail) => StepOut(d, 8 * at, |tail|);
    case VolumePiece(_, steps, x, _, units, _, rest) =>
      VolumeScanWalks(rest, d, at + 2 * steps + units);
      ScanStep(steps, x, 8 * units - |x|, units, d, at);
  }

  /** The scan of an image finds the volumes where they were laid out, whatever quiet bytes lie between them. */
  lemma ScanInvertsLayout(ps: VolumePieces, d: bytes, at: nat)
    requires VolumesLaidOut(ps, d, at) && VolumePiecesFit(ps) && QuietGaps(ps, d, at)
    ensures VolumesFrom(d, 8 * at) == VolumesLayout(ps, at)
  {
    VolumeScanWalks(ps, d, at);
    VolumeWalkYieldsLayout(VolumeScan(d), ps, at);
  }

  function VolumePiecesOutcome(ps: VolumePieces): (r: Outcome)
  {
    match ps
    case NoVolume(_) => NotFound
    case VolumePiece(_, _, _, _, _, expected, rest) => if expected.NotFound? then VolumePiecesOutcome(rest) else expected
  }

  ghost predicate VolumePiecesSearched(lz: Codec, ps: VolumePieces, depth: nat)
  {
    ps.VolumePiece? ==> SearchForMz(lz, ps.x, depth) == ps.expected && VolumePiecesSearched(lz, ps.rest, depth)
  }

  lemma DecisionStep(lz: Codec, d: bytes, x: bytes, v: VolumeAt, rest: Stream<VolumeAt>, depth: nat)
    requires At(d, v.at, x) && v.size == |x|
    ensures var search := VolumeSearch(lz, d, depth);
            var first := SearchForMz(lz, x, depth);
            FirstDecision(Yield(v, rest), search) == if first.NotFound? then FirstDecision(rest, search) else first
  {
    assert Slice(d, v.at, v.at + v.size) == x;
  }

  lemma {:induction false} DecideVolumes(lz: Codec, ps: VolumePieces, d: bytes, at: nat, depth: nat)
    requires VolumesLaidOut(ps, d, at) && VolumePiecesSearched(lz, ps, depth)
    ensures FirstDecision(VolumesLayout(ps, at), VolumeSearch(lz, d, depth)) == VolumePiecesOutcome(ps)
    decreases ps
  {
    if ps.VolumePiece? {
      var here := at + 2 * ps.steps;
      DecideVolumes(lz, ps.rest, d, here + ps.units, depth);
      DecisionStep(lz, d, ps.x, VolumeAt(8 * here, |ps.x|), VolumesLayout(ps.rest, here + ps.units), depth);
    }
  }

  /** A firmware image: volumes, with other bytes before, between and after them. */
  datatype Image = Rest(tail: bytes) | Then(gap: bytes, volume: Volume, pad: bytes, rest: Image)

  /** What one volume contributes: its first Shell executable, if that carries the DOS magic. */
  function MzShell(v: Volume): (r: Outcome)
  {
    var r := FirstShell(FileImages(v.files));
    if r.Found? && |r.body| >= 2 && r.body[0] == 'M' as int && r.body[1] == 'Z' as int then r else NotFound
  }

  function FirstMzShell(im: Image): (r: Outcome)
  {
    match im
    case Rest(_) => NotFound
    case Then(_, v, _, rest) => if MzShell(v).NotFound? then FirstMzShell(rest) else MzShell(v)
  }

  function ToVolumePieces(im: Image): (ps: VolumePieces)
  {
    match im
    case Rest(tail) => NoVolume(tail)
    case Then(gap, v, pad, rest) =>
      var x := VolumeBytes(v);
      VolumePiece(gap, |gap| / 16, x, pad, (|x| + 7) / 8, MzShell(v), ToVolumePieces(rest))
  }

  function ImageBytes(im: Image): (b: bytes)
  {
    VolumePiecesBytes(ToVolumePieces(im))
  }

  ghost predicate VolumesOk(lz: Codec, im: Image, depth: nat)
  {
    im.Then? ==> VolumeOk(lz, im.volume) && FilesDepth(im.volume.files) < depth && VolumesOk(lz, im.rest, depth)
  }

  /** Sound volumes, laid out at boundaries, and no plausible header where the scan steps in between. */
  ghost predicate ImageOk(lz: Codec, im: Image, depth: nat)
  {
    VolumesOk(lz, im, depth) && VolumePiecesFit(ToVolumePieces(im)) && QuietGaps(ToVolumePieces(im), ImageBytes(im), 0)
  }

  lemma MzSearchFinds(lz: Codec, v: Volume, x: bytes, depth: nat)
    requires SearchVolume(lz, x, depth) == FirstShell(FileImages(v.files))
    ensures SearchForMz(lz, x, depth) == MzShell(v)
  {
    FirstShellIsFirst(FileImages(v.files));
  }

  lemma {:induction false} VolumesAllFind(lz: Codec, im: Image, depth: nat)
    requires VolumesOk(lz, im, depth)
    ensures VolumePiecesSearched(lz, ToVolumePieces(im), depth)
    ensures VolumePiecesOutcome(ToVolumePieces(im)) == FirstMzShell(im)
  {
    if im.Then? {
      VolumesAllFind(lz, im.rest, depth);
      SearchVolumeFinds(lz, im.volume, depth);
      MzSearchFinds(lz, im.volume, VolumeBytes(im.volume), depth);
    }
  }

  /** Extraction from an image of volumes returns exactly what the trees show. */
  lemma ExtractFinds(lz: Codec, im: Image, depth: nat)
    requires ImageOk(lz, im, depth)
    ensures Extract(lz, ImageBytes(im), depth) == FirstMzShell(im)
  {
    var d, ps := ImageBytes(im), ToVolumePieces(im);
    VolumesAllFind(lz, im, depth);
    LayOutVolumes(ps, [], 0);
    assert [] + VolumePiecesBytes(ps) == d;
    ScanInvertsLayout(ps, d, 0);
    DecideVolumes(lz, ps, d, 0, depth);
  }
}
