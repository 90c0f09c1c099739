/**
  The walker of scripts/extract-fv-shell.py: iterators over the files of a
  firmware volume and over a stream of sections, and the recursive search for
  the UEFI Shell. The formats are those of section 3.2 (Firmware Storage
  Formats) of Volume 3 of the UEFI Platform Initialization Specification 1.8.

  The LZMA decoder is a parameter. A read past the end of a buffer, which raises
  in the source, ends a stream with `Raise`.
 */
module FirmwareVolume {
  import opened Bytes
  import opened Outcomes

  const SHELL_GUID: bytes :=
    [0x83, 0xA5, 0x04, 0x7C, 0x3E, 0x9E, 0x1C, 0x4F, 0xAD, 0x65, 0xE0, 0x52, 0x68, 0xD0, 0xB4, 0xD1]
  const LZMA_GUID: bytes :=
    [0x98, 0x58, 0x4E, 0xEE, 0x14, 0x39, 0x59, 0x42, 0x9D, 0x6E, 0xDC, 0x7B, 0xD7, 0x94, 0x03, 0xCF]
  const FVH_SIGNATURE: bytes := [0x5F, 0x46, 0x56, 0x48]

  const SECTION_COMPRESSION: byte := 0x01
  const SECTION_GUID_DEFINED: byte := 0x02
  const SECTION_PE32: byte := 0x10
  const SECTION_TE: byte := 0x12
  const SECTION_FV_IMAGE: byte := 0x17
  const FILETYPE_PAD: byte := 0xF0
  const WIDE: nat := 0xFF_FFFF

  type Codec = bytes -> Option<bytes>

  /** What a generator does: it yields items, and in the end stops or raises. */
  datatype Stream<T> = Stop | Raise | Yield(item: T, rest: Stream<T>)

  datatype SectionAt = SectionAt(at: nat, kind: byte, size: nat, body: nat)

  datatype FileAt = FileAt(at: nat, name: bytes, kind: byte, size: nat, header: nat)

  /** `_align`, for the two boundaries the formats use. */
  function Align(v: nat, boundary: nat): (r: nat)
    requires boundary == 4 || boundary == 8
    ensures v <= r < v + boundary
    ensures (boundary == 4 ==> r % 4 == 0) && (boundary == 8 ==> r % 8 == 0)
  {
    if boundary == 4 then (v + 3) / 4 * 4 else (v + 7) / 8 * 8
  }

  function ItemsOf<T>(s: Stream<T>): (items: seq<T>)
  {
    if s.Yield? then [s.item] + ItemsOf(s.rest) else []
  }

  predicate EndsRaising<T>(s: Stream<T>)
  {
    match s
    case Stop => false
    case Raise => true
    case Yield(_, rest) => EndsRaising(rest)
  }

  // --- Section streams ------------------------------------------------------------

  /** What a walk makes of the bytes at some offset: it ends, it raises, or there is an item. */
  datatype Step<T> = Ends | Raises | Item(item: T)

  function ReadSection(b: bytes, pos: nat): (r: Step<SectionAt>)
    ensures r.Item? ==> r.item.at == pos && 0 < r.item.body <= r.item.size && pos + r.item.size <= |b|
  {
    if pos + 4 > |b| then Ends
    else
      var wide := Load(b, pos, 3) == WIDE;
      if wide && pos + 8 > |b| then Raises
      else
        var size := if wide then Load(b, pos + 4, 4) else Load(b, pos, 3);
        var body := if wide then 8 else 4;
        if size < body || pos + size > |b| then Ends
        else Item(SectionAt(pos, b[pos + 3], size, body))
  }

  /** The sections of `b` from offset `pos` on. */
  function SectionsFrom(b: bytes, pos: nat): (r: Stream<SectionAt>)
    decreases |b| - pos
  {
    match ReadSection(b, pos)
    case Ends => Stop
    case Raises => Raise
    case Item(it) => Yield(it, SectionsFrom(b, Align(pos + it.size, 4)))
  }

  /** The state of a loop that has collected `items` and still has `s` to produce. */
  ghost predicate Produces<T>(whole: Stream<T>, items: seq<T>, s: Stream<T>)
  {
    ItemsOf(whole) == items + ItemsOf(s) && EndsRaising(whole) == EndsRaising(s)
  }

  lemma ProducesNext<T>(whole: Stream<T>, items: seq<T>, s: Stream<T>)
    requires Produces(whole, items, s)
    ensures s.Yield? ==> Produces(whole, items + [s.item], s.rest)
    ensures !s.Yield? ==> items == ItemsOf(whole) && EndsRaising(whole) == s.Raise?
  {
    if s.Yield? {
      assert items + ([s.item] + ItemsOf(s.rest)) == items + [s.item] + ItemsOf(s.rest);
    } else {
      assert items + [] == items;
    }
  }

  method IterSections(b: bytes) returns (items: seq<SectionAt>, raised: bool)
    ensures items == ItemsOf(SectionsFrom(b, 0)) && raised == EndsRaising(SectionsFrom(b, 0))
  {
    var pos := 0;
    items := [];
    while true
      invariant Produces(SectionsFrom(b, 0), items, SectionsFrom(b, pos))
      decreases |b| - pos
    {
      ProducesNext(SectionsFrom(b, 0), items, SectionsFrom(b, pos));
      var step := ReadSection(b, pos);
      if !step.Item? {
        return items, step.Raises?;
      }
      items := items + [step.item];
      pos := Align(pos + step.item.size, 4);
    }
  }

  // --- Firmware files ----------------------------------------------------------------

  /** Pad files and erased names are walked over, not yielded. */
  predicate Yielded(name: bytes, kind: byte)
  {
    kind != FILETYPE_PAD && !Erased(name)
  }

  predicate Erased(name: bytes)
  {
    |name| == 16 && forall i :: 0 <= i < 16 ==> name[i] == 0xFF
  }

  function ReadFile(fv: bytes, pos: nat): (r: Step<FileAt>)
    ensures r.Item? ==> r.item.at == pos && 0 < r.item.header <= r.item.size && pos + r.item.size <= |fv|
  {
    if pos + 24 > |fv| then Ends
    else
      var large := fv[pos + 19] % 2 == 1;
      var size24 := Load(fv, pos + 20, 3);
      if size24 == WIDE && !large then Ends
      else if large && pos + 32 > |fv| then Raises
      else
        var size := if large then Load(fv, pos + 24, 8) else size24;
        var header := if large then 32 else 24;
        if size < header || pos + size > |fv| then Ends
        else Item(FileAt(pos, fv[pos..pos + 16], fv[pos + 18], size, header))
  }

  function FilesFrom(fv: bytes, pos: nat): (r: Stream<FileAt>)
    decreases |fv| - pos
  {
    match ReadFile(fv, pos)
    case Ends => Stop
    case Raises => Raise
    case Item(f) =>
      var rest := FilesFrom(fv, Align(pos + f.size, 8));
      if Yielded(f.name, f.kind) then Yield(f, rest) else rest
  }

  /** The offset of the first file, from the volume header; None when reading it raises. */
  function DataStart(fv: bytes): (r: Option<nat>)
    requires |fv| >= 0x40
    ensures r.Some? ==> r.value % 8 == 0
  {
    var ext := Load(fv, 52, 2);
    if ext == 0 then Some(Align(Load(fv, 48, 2), 8))
    else if ext + 20 > |fv| then None
    else Some(Align(ext + Load(fv, ext + 16, 4), 8))
  }

  function Files(fv: bytes): (r: Stream<FileAt>)
  {
    if |fv| < 0x40 || fv[40..44] != FVH_SIGNATURE then Stop
    else match DataStart(fv)
      case None => Raise
      case Some(start) => FilesFrom(fv, start)
  }

  method IterFiles(fv: bytes) returns (items: seq<FileAt>, raised: bool)
    ensures items == ItemsOf(Files(fv)) && raised == EndsRaising(Files(fv))
  {
    if |fv| < 0x40 || fv[40..44] != FVH_SIGNATURE {
      return [], false;
    }
    var start := DataStart(fv);
    if start.None? {
      return [], true;
    }
    items, raised := IterFilesFrom(fv, start.value);
  }

  method IterFilesFrom(fv: bytes, start: nat) returns (items: seq<FileAt>, raised: bool)
    ensures items == ItemsOf(FilesFrom(fv, start)) && raised == EndsRaising(FilesFrom(fv, start))
  {
    items := [];
    var pos := start;
    while true
      invariant Produces(FilesFrom(fv, start), items, FilesFrom(fv, pos))
      decreases |fv| - pos
    {
      ProducesNext(FilesFrom(fv, start), items, FilesFrom(fv, pos));
      var step := ReadFile(fv, pos);
      if !step.Item? {
        return items, step.Raises?;
      }
      if Yielded(step.item.name, step.item.kind) {
        items := items + [step.item];
      }
      pos := Align(pos + step.item.size, 8);
    }
  }

  // --- On arbitrary bytes ----------------------------------------------------------------

  /** Every section lies in bounds, at a multiple of 4, after the end of the one before it. */
  ghost predicate SectionsInOrder(s: Stream<SectionAt>, pos: nat, end: nat)
  {
    s.Yield? ==>
      && pos <= s.item.at && s.item.at % 4 == 0
      && s.item.body <= s.item.size && s.item.at + s.item.size <= end
      && SectionsInOrder(s.rest, s.item.at + s.item.size, end)
  }

  /** Whatever the bytes, sections are in bounds, 4-aligned, disjoint and in increasing order. */
  lemma {:induction false} SectionsAreOrdered(b: bytes, pos: nat, from: nat)
    requires pos % 4 == 0 && from <= pos
    ensures SectionsInOrder(SectionsFrom(b, pos), from, |b|)
    decreases |b| - pos
  {
    var s := SectionsFrom(b, pos);
    if s.Yield? {
      SectionsAreOrdered(b, Align(pos + s.item.size, 4), pos + s.item.size);
    }
  }

  /** Every file lies in bounds, at a multiple of 8, after the end of the one before it, and is not padding. */
  ghost predicate FilesInOrder(s: Stream<FileAt>, pos: nat, end: nat)
  {
    s.Yield? ==>
      && pos <= s.item.at && s.item.at % 8 == 0
      && s.item.header <= s.item.size && s.item.at + s.item.size <= end
      && Yielded(s.item.name, s.item.kind)
      && FilesInOrder(s.rest, s.item.at + s.item.size, end)
  }

  lemma FilesInOrderLater(s: Stream<FileAt>, pos: nat, from: nat, end: nat)
    requires FilesInOrder(s, pos, end) && from <= pos
    ensures FilesInOrder(s, from, end)
  {
  }

  /** Whatever the bytes, files are in bounds, 8-aligned, disjoint and in increasing order. */
  lemma {:induction false} FilesAreOrdered(fv: bytes, pos: nat)
    requires pos % 8 == 0
    ensures FilesInOrder(FilesFrom(fv, pos), pos, |fv|)
    decreases |fv| - pos
  {
    var step := ReadFile(fv, pos);
    if step.Item? {
      var next := Align(pos + step.item.size, 8);
      FilesAreOrdered(fv, next);
      FilesInOrderLater(FilesFrom(fv, next), next, pos + step.item.size, |fv|);
      FilesInOrderLater(FilesFrom(fv, next), next, pos, |fv|);
    }
  }

  // --- The search ------------------------------------------------------------------------------

  datatype Outcome = Found(body: bytes) | NotFound | Raised

  /** A slice from `at` to the end, empty when `at` is past the end. */
  function Tail(s: bytes, at: nat): (r: bytes)
  {
    if at <= |s| then s[at..] else []
  }

  /** `s[lo:hi]`, cut to what there is. */
  function Slice(s: bytes, lo: nat, hi: nat): (r: bytes)
  {
    if hi <= |s| then (if lo <= hi then s[lo..hi] else []) else Tail(s, lo)
  }

  /** The section stream inside a GUIDED section, if the tool can get at it. */
  function Unwrap(lz: Codec, codec: bytes, attrs: nat, payload: bytes): (r: Option<bytes>)
  {
    var decoded := if codec == LZMA_GUID then lz(payload) else None;
    if decoded.None? && attrs % 2 == 0 then Some(payload) else decoded
  }

  /** Search a section stream; `depth` is how many nested streams the interpreter still allows. */
  function SearchSections(lz: Codec, blob: bytes, guid: bytes, depth: nat): (r: Outcome)
    decreases depth, 0
  {
    if depth == 0 then Raised else SearchItems(lz, blob, SectionsFrom(blob, 0), guid, depth - 1)
  }

  /** The first section that finds something, or raises, decides. */
  function SearchItems(lz: Codec, blob: bytes, s: Stream<SectionAt>, guid: bytes, depth: nat): (r: Outcome)
    decreases depth, 2, s
  {
    match s
    case Stop => NotFound
    case Raise => Raised
    case Yield(it, rest) =>
      var r := SearchSection(lz, Slice(blob, it.at, it.at + it.size), it.kind, it.body, guid, depth);
      if r.NotFound? then SearchItems(lz, blob, rest, guid, depth) else r
  }

  function SearchSection(lz: Codec, section: bytes, kind: byte, body: nat, guid: bytes, depth: nat): (r: Outcome)
    decreases depth, 1
  {
    if kind == SECTION_PE32 || kind == SECTION_TE then
      if guid == SHELL_GUID then Found(Tail(section, body)) else NotFound
    else if kind == SECTION_GUID_DEFINED then
      if |section| < 24 then Raised
      else match Unwrap(lz, section[4..20], Load(section, 22, 2), Tail(section, Load(section, 20, 2)))
        case None => NotFound
        case Some(inner) => SearchSections(lz, inner, guid, depth)
    else if kind == SECTION_COMPRESSION then
      if |section| < 9 then Raised
      else if section[8] == 0 then SearchSections(lz, section[9..], guid, depth)
      else NotFound
    else if kind == SECTION_FV_IMAGE then SearchVolume(lz, Tail(section, body), depth)
    else NotFound
  }

  function SearchVolume(lz: Codec, fv: bytes, depth: nat): (r: Outcome)
    decreases depth, 0
  {
    if depth == 0 then Raised else SearchFiles(lz, fv, Files(fv), depth - 1)
  }

  function SearchFiles(lz: Codec, fv: bytes, s: Stream<FileAt>, depth: nat): (r: Outcome)
    decreases depth, 2, s
  {
    match s
    case Stop => NotFound
    case Raise => Raised
    case Yield(it, rest) =>
      var r := SearchSections(lz, Slice(fv, it.at + it.header, it.at + it.size), it.name, depth);
      if r.NotFound? then SearchFiles(lz, fv, rest, depth) else r
  }

  // --- Whole images ---------------------------------------------------------------------------

  datatype VolumeAt = VolumeAt(at: nat, size: nat)

  /** The volume that starts at `pos`, if its header is plausible and it fits. */
  function VolumeHere(d: bytes, pos: nat): (r: Option<VolumeAt>)
    requires pos + 0x40 <= |d|
    ensures r.Some? ==> r.value.at == pos && r.value.size > 0 && pos + r.value.size <= |d|
  {
    if d[pos + 40..pos + 44] != FVH_SIGNATURE then None
    else
      var size, header := Load(d, pos + 32, 8), Load(d, pos + 48, 2);
      if header >= 0x48 && size >= header && pos + size <= |d| then Some(VolumeAt(pos, size)) else None
  }

  function VolumesFrom(d: bytes, pos: nat): (r: Stream<VolumeAt>)
    decreases |d| - pos
  {
    if pos + 0x40 > |d| then Stop
    else match VolumeHere(d, pos)
      case None => VolumesFrom(d, pos + 16)
      case Some(v) => Yield(v, VolumesFrom(d, Align(pos + v.size, 8)))
  }

  predicate StartsWithMz(b: bytes)
  {
    |b| >= 2 && b[..2] == [0x4D, 0x5A]
  }

  /** A volume whose Shell does not carry the DOS magic "MZ" is passed over. */
  function SearchForMz(lz: Codec, fv: bytes, depth: nat): (r: Outcome)
  {
    var r := SearchVolume(lz, fv, depth);
    if r.Found? && !StartsWithMz(r.body) then NotFound else r
  }

  /** The first volume that decides; `search` is applied to the volumes as they are found. */
  function FirstDecision(s: Stream<VolumeAt>, search: VolumeAt -> Outcome): (r: Outcome)
  {
    if !s.Yield? then NotFound
    else if search(s.item).NotFound? then FirstDecision(s.rest, search)
    else search(s.item)
  }

  function VolumeSearch(lz: Codec, d: bytes, depth: nat): (search: VolumeAt -> Outcome)
  {
    (v: VolumeAt) => SearchForMz(lz, Slice(d, v.at, v.at + v.size), depth)
  }

  function Extract(lz: Codec, d: bytes, depth: nat): (r: Outcome)
  {
    FirstDecision(VolumesFrom(d, 0), VolumeSearch(lz, d, depth))
  }

  /** The scan for volumes, searching each as it is found. */
  method ScanVolumes(d: bytes, search: VolumeAt -> Outcome) returns (r: Outcome)
    ensures r == FirstDecision(VolumesFrom(d, 0), search)
  {
    var pos := 0;
    while pos + 0x40 <= |d|
      invariant FirstDecision(VolumesFrom(d, 0), search) == FirstDecision(VolumesFrom(d, pos), search)
      decreases |d| - pos
    {
      var here := VolumeHere(d, pos);
      if here.None? {
        pos := pos + 16;
      } else {
        var found := search(here.value);
        if !found.NotFound? {
          return found;
        }
        pos := Align(pos + here.value.size, 8);
      }
    }
    return NotFound;
  }

  /** `extract_shell`. */
  method ExtractShell(lz: Codec, d: bytes, depth: nat) returns (r: Outcome)
    ensures r == Extract(lz, d, depth)
  {
    r := ScanVolumes(d, VolumeSearch(lz, d, depth));
  }
}
