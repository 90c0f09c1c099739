/**
  GUIDED and COMPRESSION sections with the extended header, which the walker of
  scripts/extract-fv-shell.py reads as if their header were short: what it then
  searches, and exactly when that is the section's content.
 */
module WideSections {
  import opened Bytes
  import opened Outcomes
  import opened FirmwareVolume
  import opened FirmwareTree

  function WideSection(kind: byte, payload: bytes): (x: bytes)
  {
    SectionHead(kind, true, |payload|) + payload
  }

  // --- COMPRESSION ---------------------------------------------------------------------

  /** An uncompressed COMPRESSION section: length field, scheme 0, section stream. */
  function WideCompression(length: bytes, stream: bytes): (x: bytes)
  {
    WideSection(SECTION_COMPRESSION, length + [0] + stream)
  }

  function SearchWideCompression(lz: Codec, length: bytes, stream: bytes, guid: bytes, depth: nat): Outcome
  {
    SearchSection(lz, WideCompression(length, stream), SECTION_COMPRESSION, 8, guid, depth)
  }

  /** The low byte of the length is taken for the scheme, and the rest of it for the head of a section of kind 0. */
  lemma LengthIsTakenForHead(lz: Codec, length: bytes, stream: bytes, guid: bytes, depth: nat)
    requires |length| == 4
    ensures SearchWideCompression(lz, length, stream, guid, depth) ==
      if length[0] == 0 then SearchSections(lz, length[1..] + [0] + stream, guid, depth) else NotFound
  {
    var x := WideCompression(length, stream);
    assert x[8] == length[0];
    assert x[9..] == length[1..] + [0] + stream;
  }

  lemma ReadShifted(four: bytes, b: bytes, pos: nat)
    requires |four| == 4
    ensures match ReadSection(b, pos)
            case Ends => ReadSection(four + b, 4 + pos) == Ends
            case Raises => ReadSection(four + b, 4 + pos) == Raises
            case Item(it) => ReadSection(four + b, 4 + pos) == Item(it.(at := 4 + pos))
  {
    var all := four + b;
    if pos + 4 <= |b| {
      assert all[4 + pos..4 + pos + 3] == b[pos..pos + 3];
      if pos + 8 <= |b| {
        assert all[4 + pos + 4..4 + pos + 8] == b[pos + 4..pos + 8];
      }
    }
  }

  /** How many 4-byte units a section and its padding take. */
  function Units(size: nat): (units: nat)
    ensures size <= 4 * units < size + 4
  {
    (size + 3) / 4
  }

  /** One step of a walk. */
  lemma WalkStep(b: bytes, at: nat, units: nat)
    requires ReadSection(b, 4 * at).Item? ==> units == Units(ReadSection(b, 4 * at).item.size)
    ensures match ReadSection(b, 4 * at)
            case Ends => SectionsFrom(b, 4 * at) == Stop
            case Raises => SectionsFrom(b, 4 * at) == Raise
            case Item(it) => units > 0 && SectionsFrom(b, 4 * at) == Yield(it, SectionsFrom(b, 4 * (at + units)))
  {
    if ReadSection(b, 4 * at).Item? {
      var size := ReadSection(b, 4 * at).item.size;
      Round4(at, size, 4 * units - size, units);
    }
  }

  /** One step of both walks. */
  lemma StepShifted(four: bytes, b: bytes, at: nat) returns (next: nat)
    requires |four| == 4
    ensures match ReadSection(b, 4 * at)
            case Ends => SectionsFrom(b, 4 * at) == Stop && SectionsFrom(four + b, 4 + 4 * at) == Stop
            case Raises => SectionsFrom(b, 4 * at) == Raise && SectionsFrom(four + b, 4 + 4 * at) == Raise
            case Item(it) =>
              && next > at && SectionsFrom(b, 4 * at) == Yield(it, SectionsFrom(b, 4 * next))
              && SectionsFrom(four + b, 4 + 4 * at) == Yield(it.(at := 4 + 4 * at), SectionsFrom(four + b, 4 + 4 * next))
  {
    ReadShifted(four, b, 4 * at);
    assert 4 * (at + 1) == 4 + 4 * at;
    var units := if ReadSection(b, 4 * at).Item? then Units(ReadSection(b, 4 * at).item.size) else 0;
    WalkStep(b, at, units);
    WalkStep(four + b, at + 1, units);
    next := at + units;
    assert 4 * (at + 1 + units) == 4 + 4 * next;
  }

  lemma SearchStepShifted(lz: Codec, all: bytes, b: bytes, it: SectionAt, x: bytes,
                          restAll: Stream<SectionAt>, rest: Stream<SectionAt>, guid: bytes, depth: nat)
    requires At(all, 4 + it.at, x) && At(b, it.at, x) && it.size == |x|
    requires SearchItems(lz, all, restAll, guid, depth) == SearchItems(lz, b, rest, guid, depth)
    ensures SearchItems(lz, all, Yield(it.(at := 4 + it.at), restAll), guid, depth)
      == SearchItems(lz, b, Yield(it, rest), guid, depth)
  {
    SearchItemsStep(lz, all, x, it.(at := 4 + it.at), restAll, guid, depth);
    SearchItemsStep(lz, b, x, it, rest, guid, depth);
  }

  /** Four bytes in front change nothing for a walk that starts behind them. */
  lemma {:induction false} SearchShifted(lz: Codec, four: bytes, b: bytes, at: nat, guid: bytes, depth: nat)
    requires |four| == 4
    ensures SearchItems(lz, four + b, SectionsFrom(four + b, 4 + 4 * at), guid, depth)
      == SearchItems(lz, b, SectionsFrom(b, 4 * at), guid, depth)
    decreases |b| - 4 * at
  {
    var next := StepShifted(four, b, at);
    var read := ReadSection(b, 4 * at);
    if read.Item? {
      var it, all := read.item, four + b;
      var x := b[it.at..it.at + it.size];
      assert all[4 + it.at..4 + it.at + it.size] == x;
      SearchShifted(lz, four, b, next, guid, depth);
      SearchStepShifted(lz, all, b, it, x, SectionsFrom(all, 4 + 4 * next), SectionsFrom(b, 4 * next), guid, depth);
    }
  }

  /** Where the walk gets to inside the stream. */
  datatype Landing = Missed | Breaks | Resumes(at: nat)

  /** The size the misread head announces decides: out of range, or so many 4-byte units into the stream. */
  function Land(length: bytes, stream: bytes): Landing
    requires |length| == 4
  {
    var size24 := FromLE(length[1..]);
    if length[0] != 0 then Missed
    else if size24 == WIDE && |stream| < 4 then Breaks
    else
      var size := if size24 == WIDE then Load(stream, 0, 4) else size24;
      if size < (if size24 == WIDE then 8 else 4) || size > 4 + |stream| then Missed
      else Resumes(Units(size) - 1)
  }

  /** What the first head of `b` says about where the walk gets to behind it. */
  ghost predicate Leads(b: bytes, landing: Landing)
  {
    match landing
    case Missed => ReadSection(b, 0) == Ends
    case Breaks => ReadSection(b, 0) == Raises
    case Resumes(at) =>
      ReadSection(b, 0).Item? && ReadSection(b, 0).item.kind == 0 && Align(ReadSection(b, 0).item.size, 4) == 4 + 4 * at
  }

  lemma FirstHead(length: bytes, stream: bytes)
    requires |length| == 4 && length[0] == 0
    ensures Leads(length[1..] + [0] + stream, Land(length, stream))
  {
    var b := length[1..] + [0] + stream;
    assert b[0..3] == length[1..];
    if |stream| >= 4 {
      assert b[4..8] == stream[0..4];
    }
  }

  /** What searching a landing gives. */
  function Landed(lz: Codec, landing: Landing, stream: bytes, guid: bytes, depth: nat): Outcome
  {
    match landing
    case Missed => NotFound
    case Breaks => Raised
    case Resumes(at) => SearchItems(lz, stream, SectionsFrom(stream, 4 * at), guid, depth)
  }

  /** The search of the bytes behind the misread scheme. */
  lemma MisreadSearch(lz: Codec, four: bytes, stream: bytes, b: bytes, landing: Landing, guid: bytes, depth: nat)
    requires |four| == 4 && depth > 0 && b == four + stream && Leads(b, landing)
    ensures SearchSections(lz, b, guid, depth) == Landed(lz, landing, stream, guid, depth - 1)
  {
    match landing
    case Resumes(at) =>
      SearchShifted(lz, four, stream, at, guid, depth - 1);
      SkipFirst(lz, b, 4 + 4 * at, guid, depth);
    case _ =>
      EndsAtOnce(lz, b, guid, depth);
  }

  /** The search of a wide COMPRESSION section, for every length field and content. */
  lemma WideCompressionSearch(lz: Codec, length: bytes, stream: bytes, guid: bytes, depth: nat)
    requires |length| == 4 && depth > 0
    ensures SearchWideCompression(lz, length, stream, guid, depth) == Landed(lz, Land(length, stream), stream, guid, depth - 1)
  {
    LengthIsTakenForHead(lz, length, stream, guid, depth);
    if length[0] == 0 {
      FirstHead(length, stream);
      MisreadSearch(lz, length[1..] + [0], stream, length[1..] + [0] + stream, Land(length, stream), guid, depth);
    }
  }

  lemma EndsAtOnce(lz: Codec, b: bytes, guid: bytes, depth: nat)
    requires depth > 0 && !ReadSection(b, 0).Item?
    ensures SearchSections(lz, b, guid, depth) == if ReadSection(b, 0).Ends? then NotFound else Raised
  {
  }

  /** A first section of kind 0 is walked over. */
  lemma SkipFirst(lz: Codec, b: bytes, next: nat, guid: bytes, depth: nat)
    requires depth > 0 && ReadSection(b, 0).Item? && ReadSection(b, 0).item.kind == 0
    requires Align(ReadSection(b, 0).item.size, 4) == next
    ensures SearchSections(lz, b, guid, depth) == SearchItems(lz, b, SectionsFrom(b, next), guid, depth - 1)
  {
    var it := ReadSection(b, 0).item;
    var x := b[0..it.size];
    assert SectionsFrom(b, 0) == Yield(it, SectionsFrom(b, next));
    assert SearchSection(lz, x, 0, it.body, guid, depth - 1) == NotFound;
    SearchItemsStep(lz, b, x, it, SectionsFrom(b, next), guid, depth - 1);
  }

  /** The section shows what the tree inside it shows. */
  ghost predicate ShowsContent(lz: Codec, length: bytes, inner: Sections, guid: bytes, depth: nat)
  {
    SectionsOk(lz, inner) && ItemsDepth(inner) < depth ==>
      SearchWideCompression(lz, length, SectionsBytes(inner), guid, depth) == FirstShell(Images(inner, guid))
  }

  /** For one content: where the walk misses it, the search is right if and only if there is no Shell inside. */
  lemma MissedShowsContentIff(lz: Codec, length: bytes, inner: Sections, guid: bytes, depth: nat)
    requires |length| == 4 && SectionsOk(lz, inner) && ItemsDepth(inner) < depth
    requires Land(length, SectionsBytes(inner)) == Missed
    ensures ShowsContent(lz, length, inner, guid, depth)
      <==> forall i :: 0 <= i < |Images(inner, guid)| ==> Images(inner, guid)[i].file != SHELL_GUID
  {
    WideCompressionSearch(lz, length, SectionsBytes(inner), guid, depth);
    NothingToShow(Images(inner, guid));
  }

  lemma NothingToShow(images: seq<Located>)
    ensures FirstShell(images) == NotFound <==> forall i :: 0 <= i < |images| ==> images[i].file != SHELL_GUID
  {
    FirstShellIsFirst(images);
  }

  /** A single executable of `n` zero bytes. */
  function OneImage(wide: bool, n: nat): Sections
  {
    Last(Executable(false, wide, seq(n, _ => 0)), [])
  }

  lemma OneImageIs(lz: Codec, wide: bool, n: nat)
    requires if wide then 8 + n < 0x1_0000_0000 else 4 + n < WIDE
    ensures SectionsOk(lz, OneImage(wide, n)) && ItemsDepth(OneImage(wide, n)) < 2
    ensures FirstShell(Images(OneImage(wide, n), SHELL_GUID)) == Found(seq(n, _ => 0))
    ensures SectionsBytes(OneImage(wide, n)) == SectionHead(SECTION_PE32, wide, n) + seq(n, _ => 0)
  {
    var x := SectionBytes(Executable(false, wide, seq(n, _ => 0)));
    assert x + [] == x;
  }

  /** The length field whose sections are always searched as they should be. */
  const LUCKY_LENGTH: bytes := [0, 4, 0, 0]

  ghost predicate AlwaysShows(length: bytes)
  {
    forall lz: Codec, inner, guid, depth :: ShowsContent(lz, length, inner, guid, depth)
  }

  lemma LuckyLengthShows(lz: Codec, inner: Sections, guid: bytes, depth: nat)
    ensures ShowsContent(lz, LUCKY_LENGTH, inner, guid, depth)
  {
    if SectionsOk(lz, inner) && ItemsDepth(inner) < depth {
      LuckyLengthLands(SectionsBytes(inner));
      WideCompressionSearch(lz, LUCKY_LENGTH, SectionsBytes(inner), guid, depth);
      SearchSectionsFinds(lz, inner, guid, depth);
    }
  }

  lemma LuckyLengthLands(stream: bytes)
    ensures Land(LUCKY_LENGTH, stream) == Resumes(0)
  {
    assert LUCKY_LENGTH[1..] == [4, 0, 0];
    assert [4, 0, 0][1..] == [0, 0] && [0, 0][1..] == [0] && [0][1..] == [];
    assert FromLE(LUCKY_LENGTH[1..]) == 4;
  }

  lemma OtherLengthMisses(length: bytes)
    requires |length| == 4 && length != LUCKY_LENGTH
    ensures !ShowsContent(_ => None, length, OneImage(false, 0), SHELL_GUID, 2)
  {
    var lz: Codec := _ => None;
    var inner := OneImage(false, 0);
    OneImageIs(lz, false, 0);
    var b := SectionsBytes(inner);
    assert b == [4, 0, 0, 0x10] by {
      assert ToLE(4, 3) == [4] + ([0] + ([0] + []));
    }
    WideCompressionSearch(lz, length, b, SHELL_GUID, 2);
    if Land(length, b).Resumes? {
      LandsBehind(length, b);
    }
  }

  lemma LandsBehind(length: bytes, b: bytes)
    requires |length| == 4 && length != LUCKY_LENGTH && b == [4, 0, 0, 0x10] && Land(length, b).Resumes?
    ensures Land(length, b).at >= 1 && SectionsFrom(b, 4 * Land(length, b).at) == Stop
  {
    var n := FromLE(length[1..]);
    LoadThenStore(length[1..]);
    assert ToLE(4, 3) == [4] + ([0] + ([0] + []));
    assert length[0] == 0 && length == [length[0]] + length[1..];
    FourBytes(b, 0);
    TwoBytes(b, 0, 4, 0);
    TwoBytes(b, 2, 0, 0x10);
  }

  /** Whatever is inside, the search shows it: if and only if the length field is the one value 0x400. */
  lemma WideCompressionShowsIff(length: bytes)
    requires |length| == 4
    ensures AlwaysShows(length) <==> length == LUCKY_LENGTH
  {
    if length == LUCKY_LENGTH {
      forall lz: Codec, inner, guid, depth
        ensures ShowsContent(lz, length, inner, guid, depth)
      {
        LuckyLengthShows(lz, inner, guid, depth);
      }
    } else {
      OtherLengthMisses(length);
    }
  }

  // With the length field telling the truth, as the format asks.

  ghost predicate TruthfulShows(length: nat)
  {
    forall lz: Codec, inner, guid, depth ::
      |SectionsBytes(inner)| == length ==> ShowsContent(lz, ToLE(length, 4), inner, guid, depth)
  }

  lemma LengthBytes(length: nat)
    requires length < 0x1_0000_0000
    ensures var b := ToLE(length, 4); b[0] == length % 256 && FromLE(b[1..]) == length / 256
  {
    WordSizes();
    assert ToLE(length, 4)[1..] == ToLE(length / 256, 3);
    StoreThenLoad(length / 256, 3);
  }

  /** Fewer than four bytes hold no section. */
  lemma ShortStreamIsEmpty(lz: Codec, inner: Sections, guid: bytes)
    requires |SectionsBytes(inner)| < 4
    ensures Images(inner, guid) == []
  {
    match inner
    case Done(_) =>
    case Last(_, _) =>
    case More(_, _, _) =>
  }

  lemma ShortStreamShows(lz: Codec, inner: Sections, guid: bytes, depth: nat)
    requires |SectionsBytes(inner)| < 4
    ensures ShowsContent(lz, ToLE(|SectionsBytes(inner)|, 4), inner, guid, depth)
  {
    var b := SectionsBytes(inner);
    LengthBytes(|b|);
    ShortStreamIsEmpty(lz, inner, guid);
    if depth > 0 {
      WideCompressionSearch(lz, ToLE(|b|, 4), b, guid, depth);
    }
  }

  lemma LuckyLengthIs()
    ensures ToLE(0x400, 4) == LUCKY_LENGTH
  {
    assert ToLE(0x400, 4) == [0] + ([4] + ([0] + ([0] + [])));
  }

  lemma ZerosEnd(b: bytes, pos: nat)
    requires forall k :: pos <= k < |b| ==> b[k] == 0
    ensures SectionsFrom(b, pos) == Stop
  {
    if pos + 4 <= |b| {
      ZeroLoad(b[pos..pos + 3]);
    }
  }

  /** The image that fills a stream of the given length. */
  function FillingImage(length: nat): Sections
    requires length >= 4
  {
    if length < WIDE then OneImage(false, length - 4) else OneImage(true, length - 8)
  }

  lemma FillingImageIs(lz: Codec, length: nat)
    requires 4 <= length < 0x1_0000_0000
    ensures var inner := FillingImage(length);
      && SectionsOk(lz, inner) && ItemsDepth(inner) < 2 && FirstShell(Images(inner, SHELL_GUID)).Found?
      && |SectionsBytes(inner)| == length
      && (forall k :: (if length < WIDE then 4 else 8) <= k < length ==> SectionsBytes(inner)[k] == 0)
      && (length >= WIDE ==> SectionsBytes(inner)[..4] == [0xFF, 0xFF, 0xFF, 0x10])
  {
    if length < WIDE {
      OneImageIs(lz, false, length - 4);
    } else {
      OneImageIs(lz, true, length - 8);
    }
  }

  lemma WideHeadSize(b: bytes)
    requires |b| >= 4 && b[..4] == [0xFF, 0xFF, 0xFF, 0x10]
    ensures Load(b, 0, 4) == 0x10FF_FFFF
  {
    assert b[0] == b[..4][0] && b[1] == b[..4][1] && b[2] == b[..4][2] && b[3] == b[..4][3];
    FourBytes(b, 0);
    TwoBytes(b, 0, 0xFF, 0xFF);
    TwoBytes(b, 2, 0xFF, 0x10);
  }

  lemma FillingImageIsMissed(length: nat)
    requires 4 <= length < 0x1_0000_0000 && length != 0x400
    ensures !ShowsContent(_ => None, ToLE(length, 4), FillingImage(length), SHELL_GUID, 2)
  {
    var lz: Codec := _ => None;
    var field, b := ToLE(length, 4), SectionsBytes(FillingImage(length));
    FillingImageIs(lz, length);
    LengthBytes(length);
    WideCompressionSearch(lz, field, b, SHELL_GUID, 2);
    if length >= WIDE {
      WideHeadSize(b);
    }
    if Land(field, b).Resumes? {
      var at := Land(field, b).at;
      assert at >= 1 && (length >= WIDE ==> at >= 2);
      ZerosEnd(b, 4 * at);
    }
  }

  /**
    With the true length in the field, every content is shown if and only if
    the stream is 1024 bytes long, or too short to hold a section.
   */
  lemma TruthfulLengthShowsIff(length: nat)
    requires length < 0x1_0000_0000
    ensures TruthfulShows(length) <==> length < 4 || length == 0x400
  {
    if length < 4 || length == 0x400 {
      forall lz: Codec, inner, guid, depth | |SectionsBytes(inner)| == length
        ensures ShowsContent(lz, ToLE(length, 4), inner, guid, depth)
      {
        if length < 4 {
          ShortStreamShows(lz, inner, guid, depth);
        } else {
          LuckyLengthIs();
          LuckyLengthShows(lz, inner, guid, depth);
        }
      }
    } else {
      FillingImageIs(_ => None, length);
      FillingImageIsMissed(length);
    }
  }

  // --- GUIDED ---------------------------------------------------------------------------

  /** The codec's GUID is read four bytes early: size field and GUID run together. */
  lemma WideGuidedSearch(lz: Codec, codec: bytes, rest: bytes, guid: bytes, depth: nat)
    requires |codec| == 16
    ensures var x := WideSection(SECTION_GUID_DEFINED, codec + rest);
      SearchSection(lz, x, SECTION_GUID_DEFINED, 8, guid, depth) ==
      match Unwrap(lz, ToLE(24 + |rest|, 4) + codec[..12], FromLE(codec[14..]), Tail(x, FromLE(codec[12..14])))
      case None => NotFound
      case Some(inner) => SearchSections(lz, inner, guid, depth)
  {
    var p := codec + rest;
    var x := WideSection(SECTION_GUID_DEFINED, p);
    assert x[4..20] == ToLE(24 + |rest|, 4) + codec[..12];
    assert x[20..22] == codec[12..14];
    assert x[22..24] == codec[14..];
  }

  /** What is read is not the codec's GUID, and its last two bytes pass for attributes that require processing. */
  lemma LzmaIsMisread(size: bytes)
    requires |size| == 4
    ensures size + LZMA_GUID[..12] != LZMA_GUID && FromLE(LZMA_GUID[14..]) == 0xCF03
  {
    assert (size + LZMA_GUID[..12])[4] == 0x98 && LZMA_GUID[4] == 0x14;
    assert LZMA_GUID[14..] == [0x03, 0xCF] && [0x03, 0xCF][1..] == [0xCF] && [0xCF][1..] == [];
  }

  /** Every LZMA section with the extended header is passed over. */
  lemma WideLzmaIsMissed(lz: Codec, rest: bytes, guid: bytes, depth: nat)
    ensures SearchSection(lz, WideSection(SECTION_GUID_DEFINED, LZMA_GUID + rest), SECTION_GUID_DEFINED, 8, guid, depth) == NotFound
  {
    WideGuidedSearch(lz, LZMA_GUID, rest, guid, depth);
    LzmaIsMisread(ToLE(24 + |rest|, 4));
  }

  /** So the search shows what such a section holds if and only if there is no Shell in it. */
  lemma WideLzmaShowsIff(lz: Codec, rest: bytes, inner: Sections, guid: bytes, depth: nat)
    ensures SearchSection(lz, WideSection(SECTION_GUID_DEFINED, LZMA_GUID + rest), SECTION_GUID_DEFINED, 8, guid, depth)
      == FirstShell(Images(inner, guid))
      <==> forall i :: 0 <= i < |Images(inner, guid)| ==> Images(inner, guid)[i].file != SHELL_GUID
  {
    WideLzmaIsMissed(lz, rest, guid, depth);
    NothingToShow(Images(inner, guid));
  }
}
