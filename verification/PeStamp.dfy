/**
  The parse-and-patch sequence of scripts/pe-set-debug.c: point data directory 6
  of a PE32+ image at its .dbgdir section, fill in the debug entry and the
  module name, and store the build identity of the result inside the result.

  A read or write that the C program makes without a bounds check appears here
  as the error `OutOfBounds`.
 */
module PeStamp {
  import opened Bytes
  import opened Outcomes
  import BuildId

  const MZ_MAGIC := 0x5A4D
  const PE_MAGIC := 0x0000_4550
  const PE32PLUS_MAGIC := 0x20b
  const RSDS_SIGNATURE := 0x5344_5352
  const U32 := 0x1_0000_0000
  const DDE_SIZE: nat := 28
  const NAME_OFF: nat := 24
  const SECTION_NAME: bytes := [0x2E, 0x64, 0x62, 0x67, 0x64, 0x69, 0x72, 0]  // ".dbgdir\0"

  datatype Error =
    | NotPe | BadSignature | NotPe32Plus | TooFewDirectories | TableOverrun
    | NoDebugSection | SectionTooSmall | NotCodeView | BadRsds | OutOfBounds

  /** Where the PE32+ headers put the fields this tool touches. */
  datatype Headers = Headers(pe: nat, opt: nat, table: nat, count: nat)

  /** The .dbgdir section header: VirtualAddress, SizeOfRawData, PointerToRawData. */
  datatype Section = Section(rva: nat, raw: nat, off: nat) {
    function Rsds(): nat { off + DDE_SIZE }
    function Guid(): nat { off + DDE_SIZE + 4 }
    function NameField(): nat { off + DDE_SIZE + NAME_OFF }
  }

  // --- Parsing ----------------------------------------------------------------

  function ParseHeaders(d: bytes): (r: Result<Headers, Error>)
    ensures r.Ok? ==> r.value.opt == r.value.pe + 24 && r.value.opt + 168 <= |d| && r.value.opt <= r.value.table
    ensures r.Ok? ==> |d| >= 64
  {
    if |d| < 64 || Load(d, 0, 2) != MZ_MAGIC then Err(NotPe)
    else
      var pe := Load(d, 60, 4);
      if (pe + 24) % U32 > |d| % U32 then Err(BadSignature)
      else if pe + 24 > |d| then Err(OutOfBounds)
      else if Load(d, pe, 4) != PE_MAGIC then Err(BadSignature)
      else if pe + 24 + 168 > |d| then Err(OutOfBounds)
      else if Load(d, pe + 24, 2) != PE32PLUS_MAGIC then Err(NotPe32Plus)
      else Ok(Headers(pe, pe + 24, pe + 24 + Load(d, pe + 20, 2), Load(d, pe + 6, 2)))
  }

  /** The first section header named .dbgdir, from entry `i` on. */
  function FindSection(d: bytes, table: nat, count: nat, i: nat): (r: Option<Section>)
    requires i <= count && table + 40 * count <= |d|
    decreases count - i
  {
    if i == count then None
    else
      var sh := table + 40 * i;
      if d[sh..sh + 8] == SECTION_NAME then
        Some(Section(Load(d, sh + 12, 4), Load(d, sh + 16, 4), Load(d, sh + 20, 4)))
      else FindSection(d, table, count, i + 1)
  }

  /** Whether the section found can be patched in a file of that size. */
  function Accept(found: Option<Section>, size: nat): (r: Result<Section, Error>)
    ensures r.Ok? ==> r.value.raw >= DDE_SIZE + NAME_OFF + 1 && r.value.off + r.value.raw <= size && found == Some(r.value)
  {
    match found
    case None => Err(NoDebugSection)
    case Some(s) =>
      if s.raw < DDE_SIZE + NAME_OFF + 1 then Err(SectionTooSmall)
      else if s.off + s.raw > size then Err(OutOfBounds)
      else Ok(s)
  }

  function LocateSection(d: bytes, h: Headers): (r: Result<Section, Error>)
    requires h.opt + 168 <= |d|
    ensures r.Ok? ==> r.value.raw >= DDE_SIZE + NAME_OFF + 1 && r.value.off + r.value.raw <= |d|
    ensures r.Ok? ==> h.table + 40 * h.count <= |d| && FindSection(d, h.table, h.count, 0) == Some(r.value)
  {
    if Load(d, h.opt + 108, 4) <= 6 then Err(TooFewDirectories)
    else if h.table + 40 * h.count > |d| then Err(TableOverrun)
    else Accept(FindSection(d, h.table, h.count, 0), |d|)
  }

  // --- Patching ---------------------------------------------------------------

  /** `characteristics | IMAGE_DLLCHARACTERISTICS_NX_COMPAT`. */
  function WithNxBit(v: nat): (r: nat)
    ensures (r / 256) % 2 == 1 && (r == v || r == v + 256)
  {
    if (v / 256) % 2 == 1 then v else v + 256
  }

  function SetNx(d: bytes, opt: nat): (e: bytes)
    requires opt + 168 <= |d|
    ensures |e| == |d|
  {
    Store(d, opt + 70, ToLE(WithNxBit(Load(d, opt + 70, 2)), 2))
  }

  function SetDirectory(d: bytes, opt: nat, rva: nat): (e: bytes)
    requires opt + 168 <= |d|
    ensures |e| == |d|
  {
    Store(Store(d, opt + 160, ToLE(rva, 4)), opt + 164, ToLE(DDE_SIZE, 4))
  }

  function SetEntry(d: bytes, s: Section): (e: bytes)
    requires s.off + DDE_SIZE <= |d|
    ensures |e| == |d|
  {
    Store(Store(d, s.off + 20, ToLE((s.rva + DDE_SIZE) % U32, 4)), s.off + 24, ToLE((s.off + DDE_SIZE) % U32, 4))
  }

  /** The NUL-padded file name field: the name cut to leave room for one NUL. */
  function NameBytes(name: bytes, space: nat): (f: bytes)
    requires space > 0
    ensures |f| == space && f[space - 1] == 0
  {
    var cut := if |name| >= space then space - 1 else |name|;
    name[..cut] + seq(space - cut, _ => 0)
  }

  function SetName(d: bytes, s: Section, name: bytes): (e: bytes)
    requires DDE_SIZE + NAME_OFF < s.raw && s.off + s.raw <= |d|
    ensures |e| == |d|
  {
    Store(d, s.NameField(), NameBytes(name, s.raw - DDE_SIZE - NAME_OFF))
  }

  /** Everything up to the RSDS check: the part a print query shares with a stamp. */
  function PatchEntry(d: bytes, opt: nat, s: Section): (r: Result<bytes, Error>)
    requires opt + 168 <= |d| && DDE_SIZE + NAME_OFF < s.raw && s.off + s.raw <= |d|
    ensures r.Ok? ==> |r.value| == |d|
  {
    var d2 := SetDirectory(d, opt, s.rva);
    if Load(d2, s.off + 12, 4) != 2 then Err(NotCodeView)
    else
      var d3 := SetEntry(d2, s);
      if Load(d3, s.Rsds(), 4) != RSDS_SIGNATURE then Err(BadRsds) else Ok(d3)
  }

  /** The module name, then the identity of everything written so far. */
  function Seal(d: bytes, s: Section, name: bytes): (e: bytes)
    requires DDE_SIZE + NAME_OFF < s.raw && s.off + s.raw <= |d|
    ensures |e| == |d|
  {
    var named := SetName(d, s, name);
    Store(named, s.Guid(), BuildId.Id(named, s.Guid()))
  }

  /** The whole run on a file: the patched bytes, or the reason it wrote nothing. */
  function Stamp(file: bytes, name: bytes): (r: Result<bytes, Error>)
    ensures r.Ok? ==> |r.value| == |file|
  {
    var h :- ParseHeaders(file);
    StampMarked(SetNx(file, h.opt), h, name)
  }

  /** The rest of it, once the flags are set. */
  function StampMarked(d1: bytes, h: Headers, name: bytes): (r: Result<bytes, Error>)
    requires h.opt + 168 <= |d1|
    ensures r.Ok? ==> |r.value| == |d1|
  {
    var s :- LocateSection(d1, h);
    var d3 :- PatchEntry(d1, h.opt, s);
    Ok(Seal(d3, s, name))
  }

  /** The read-only query: the 16 bytes an image carries in its GUID field. */
  function PrintId(file: bytes): (r: Result<bytes, Error>)
    ensures r.Ok? ==> |r.value| == 16
  {
    var h :- ParseHeaders(file);
    var d1 := SetNx(file, h.opt);
    var s :- LocateSection(d1, h);
    var d3 :- PatchEntry(d1, h.opt, s);
    Ok(d3[s.Guid()..s.Guid() + 16])
  }

  // --- The program, patching a buffer in place ----------------------------------

  method Poke(data: array<byte>, at: nat, patch: bytes)
    requires at + |patch| <= data.Length
    modifies data
    ensures data[..] == Store(old(data[..]), at, patch)
  {
    for i := 0 to |patch|
      invariant forall k :: 0 <= k < data.Length ==>
        data[k] == if at <= k < at + i then patch[k - at] else old(data[k])
    {
      data[at + i] := patch[i];
    }
  }

  method SearchTable(data: array<byte>, table: nat, count: nat) returns (r: Option<Section>)
    requires table + 40 * count <= data.Length
    ensures r == FindSection(data[..], table, count, 0)
  {
    var d := data[..];
    for i := 0 to count
      invariant FindSection(d, table, count, 0) == FindSection(d, table, count, i)
    {
      var sh := table + 40 * i;
      if d[sh..sh + 8] == SECTION_NAME {
        return Some(Section(Load(d, sh + 12, 4), Load(d, sh + 16, 4), Load(d, sh + 20, 4)));
      }
    }
    return None;
  }

  method FindSectionInPlace(data: array<byte>, h: Headers) returns (r: Result<Section, Error>)
    requires h.opt + 168 <= data.Length
    ensures r == LocateSection(data[..], h)
  {
    if Load(data[..], h.opt + 108, 4) <= 6 {
      return Err(TooFewDirectories);
    }
    if h.table + 40 * h.count > data.Length {
      return Err(TableOverrun);
    }
    var found := SearchTable(data, h.table, h.count);
    if found.None? {
      return Err(NoDebugSection);
    }
    var s := found.value;
    if s.raw < DDE_SIZE + NAME_OFF + 1 {
      return Err(SectionTooSmall);
    }
    if s.off + s.raw > data.Length {
      return Err(OutOfBounds);
    }
    return Ok(s);
  }

  method PokeDirectory(data: array<byte>, opt: nat, rva: nat)
    requires opt + 168 <= data.Length
    modifies data
    ensures data[..] == SetDirectory(old(data[..]), opt, rva)
  {
    Poke(data, opt + 160, ToLE(rva, 4));
    Poke(data, opt + 164, ToLE(DDE_SIZE, 4));
  }

  method PokeEntry(data: array<byte>, s: Section)
    requires s.off + DDE_SIZE <= data.Length
    modifies data
    ensures data[..] == SetEntry(old(data[..]), s)
  {
    Poke(data, s.off + 20, ToLE((s.rva + DDE_SIZE) % U32, 4));
    Poke(data, s.off + 24, ToLE((s.off + DDE_SIZE) % U32, 4));
  }

  method PatchEntryInPlace(data: array<byte>, opt: nat, s: Section) returns (e: Option<Error>)
    requires opt + 168 <= data.Length && DDE_SIZE + NAME_OFF < s.raw && s.off + s.raw <= data.Length
    modifies data
    ensures match PatchEntry(old(data[..]), opt, s)
            case Ok(d) => e == None && data[..] == d
            case Err(x) => e == Some(x)
  {
    PokeDirectory(data, opt, s.rva);
    if Load(data[..], s.off + 12, 4) != 2 {
      return Some(NotCodeView);
    }
    PokeEntry(data, s);
    if Load(data[..], s.Rsds(), 4) != RSDS_SIGNATURE {
      return Some(BadRsds);
    }
    return None;
  }

  method SealInPlace(data: array<byte>, s: Section, name: bytes)
    requires DDE_SIZE + NAME_OFF < s.raw && s.off + s.raw <= data.Length
    modifies data
    ensures data[..] == Seal(old(data[..]), s, name)
  {
    Poke(data, s.NameField(), NameBytes(name, s.raw - DDE_SIZE - NAME_OFF));
    var id := BuildId.ComputeId(data, s.Guid());
    Poke(data, s.Guid(), id);
  }

  /**
    One run of the program on the contents of a file. Parsing and patching
    interleave exactly as in the source; the file is rewritten only on success.
   */
  method Run(file: bytes, name: bytes) returns (r: Result<bytes, Error>)
    ensures r == Stamp(file, name)
  {
    var headers := ParseHeaders(file);
    if headers.Err? {
      return Err(headers.error);
    }
    r := RunParsed(file, headers.value, name);
  }

  method RunParsed(file: bytes, h: Headers, name: bytes) returns (r: Result<bytes, Error>)
    requires ParseHeaders(file) == Ok(h)
    ensures r == Stamp(file, name)
  {
    var data := new byte[|file|](i requires 0 <= i < |file| => file[i]);
    assert data[..] == file;
    Poke(data, h.opt + 70, ToLE(WithNxBit(Load(data[..], h.opt + 70, 2)), 2));
    r := RunMarked(data, h, name);
  }

  method RunMarked(data: array<byte>, h: Headers, name: bytes) returns (r: Result<bytes, Error>)
    requires h.opt + 168 <= data.Length
    modifies data
    ensures r == StampMarked(old(data[..]), h, name)
  {
    var found := FindSectionInPlace(data, h);
    if found.Err? {
      return Err(found.error);
    }
    r := Finish(data, h.opt, found.value, name);
  }

  /** The rest of a run, once the section is found. */
  method Finish(data: array<byte>, opt: nat, s: Section, name: bytes) returns (r: Result<bytes, Error>)
    requires opt + 168 <= data.Length && DDE_SIZE + NAME_OFF < s.raw && s.off + s.raw <= data.Length
    modifies data
    ensures r == match PatchEntry(old(data[..]), opt, s)
                 case Ok(d) => Ok(Seal(d, s, name))
                 case Err(e) => Err(e)
  {
    var failed := PatchEntryInPlace(data, opt, s);
    if failed.Some? {
      return Err(failed.value);
    }
    SealInPlace(data, s, name);
    return Ok(data[..]);
  }

  // --- Stamping reaches a fixed point ------------------------------------------

  predicate Apart(from: nat, to: nat, lo: nat, hi: nat)
  {
    to <= lo || hi <= from
  }

  /** No byte from `lo` to `hi` is among those a run writes into the headers ... */
  predicate ClearOfHeaders(h: Headers, lo: nat, hi: nat)
  {
    Apart(h.opt + 70, h.opt + 72, lo, hi) && Apart(h.opt + 160, h.opt + 168, lo, hi)
  }

  /** ... or into the section. */
  predicate ClearOfSection(s: Section, lo: nat, hi: nat)
    requires DDE_SIZE + NAME_OFF < s.raw
  {
    && Apart(s.off + 20, s.off + 28, lo, hi) && Apart(s.Guid(), s.Guid() + 16, lo, hi)
    && Apart(s.NameField(), s.off + s.raw, lo, hi)
  }

  predicate Clear(h: Headers, s: Section, lo: nat, hi: nat)
    requires DDE_SIZE + NAME_OFF < s.raw
  {
    ClearOfHeaders(h, lo, hi) && ClearOfSection(s, lo, hi)
  }

  /**
    What a run reads and what it writes are apart, and so are the fields it
    writes: any layout, as long as the .dbgdir contents do not lie over a
    header field, nor header fields over each other.
   */
  predicate Disjoint(h: Headers, s: Section)
  {
    && DDE_SIZE + NAME_OFF < s.raw
    && Clear(h, s, 0, 2) && Clear(h, s, 60, 64)
    && Clear(h, s, h.pe, h.pe + 4) && Clear(h, s, h.pe + 6, h.pe + 8) && Clear(h, s, h.pe + 20, h.pe + 22)
    && Clear(h, s, h.opt, h.opt + 2) && Clear(h, s, h.opt + 108, h.opt + 112)
    && Clear(h, s, h.table, h.table + 40 * h.count)
    && ClearOfHeaders(h, s.off + 12, s.off + 16) && ClearOfHeaders(h, s.Rsds(), s.Rsds() + 4)
    && ClearOfSection(s, h.opt + 70, h.opt + 72) && ClearOfSection(s, h.opt + 160, h.opt + 168)
  }

  /** As the linker lays images out: headers, section table, and the contents behind or before them. */
  lemma LinkedIsDisjoint(h: Headers, s: Section)
    requires 64 <= h.pe && h.opt == h.pe + 24 && h.opt + 168 <= h.table && DDE_SIZE + NAME_OFF < s.raw
    requires h.table + 40 * h.count <= s.off || (64 <= s.off && s.off + s.raw <= h.pe)
    ensures Disjoint(h, s)
  {
  }

  /** The bytes a run may change. */
  ghost predicate Patched(h: Headers, s: Section, k: int)
  {
    || h.opt + 70 <= k < h.opt + 72
    || h.opt + 160 <= k < h.opt + 168
    || s.off + 20 <= k < s.off + 28
    || s.Guid() <= k < s.Guid() + 16
    || s.NameField() <= k < s.off + s.raw
  }

  ghost predicate AgreeElsewhere(d: bytes, e: bytes, h: Headers, s: Section)
  {
    |d| == |e| && forall k :: 0 <= k < |d| && !Patched(h, s, k) ==> d[k] == e[k]
  }

  lemma ClearUnchanged(d: bytes, e: bytes, h: Headers, s: Section, lo: nat, hi: nat)
    requires AgreeElsewhere(d, e, h, s) && DDE_SIZE + NAME_OFF < s.raw && Clear(h, s, lo, hi) && lo <= hi <= |d|
    ensures d[lo..hi] == e[lo..hi]
  {
    forall k | lo <= k < hi
      ensures d[k] == e[k]
    {
      assert !Patched(h, s, k);
    }
  }

  lemma SameFieldsSameHeaders(d: bytes, e: bytes, h: Headers)
    requires ParseHeaders(d) == Ok(h) && |d| == |e| && d[0..2] == e[0..2] && d[60..64] == e[60..64]
    requires d[h.pe..h.pe + 4] == e[h.pe..h.pe + 4] && d[h.opt..h.opt + 2] == e[h.opt..h.opt + 2]
    requires d[h.pe + 20..h.pe + 22] == e[h.pe + 20..h.pe + 22] && d[h.pe + 6..h.pe + 8] == e[h.pe + 6..h.pe + 8]
    ensures ParseHeaders(e) == Ok(h)
  {
  }

  lemma HeadersUnchanged(d: bytes, e: bytes, h: Headers, s: Section)
    requires ParseHeaders(d) == Ok(h) && Disjoint(h, s) && AgreeElsewhere(d, e, h, s)
    ensures ParseHeaders(e) == Ok(h)
  {
    ClearUnchanged(d, e, h, s, 0, 2);
    ClearUnchanged(d, e, h, s, 60, 64);
    ClearUnchanged(d, e, h, s, h.pe, h.pe + 4);
    ClearUnchanged(d, e, h, s, h.opt, h.opt + 2);
    ClearUnchanged(d, e, h, s, h.pe + 20, h.pe + 22);
    ClearUnchanged(d, e, h, s, h.pe + 6, h.pe + 8);
    SameFieldsSameHeaders(d, e, h);
  }

  lemma EntryUnchanged(d: bytes, e: bytes, sh: nat)
    requires sh + 40 <= |d| == |e| && forall k :: sh <= k < sh + 40 ==> d[k] == e[k]
    ensures d[sh..sh + 8] == e[sh..sh + 8]
    ensures Load(d, sh + 12, 4) == Load(e, sh + 12, 4)
    ensures Load(d, sh + 16, 4) == Load(e, sh + 16, 4)
    ensures Load(d, sh + 20, 4) == Load(e, sh + 20, 4)
  {
    LoadAgrees(d, e, sh + 12, 4);
    LoadAgrees(d, e, sh + 16, 4);
    LoadAgrees(d, e, sh + 20, 4);
  }

  lemma {:induction false} SearchUnchanged(d: bytes, e: bytes, table: nat, count: nat, i: nat)
    requires i <= count && table + 40 * count <= |d| == |e|
    requires forall k :: table <= k < table + 40 * count ==> d[k] == e[k]
    ensures FindSection(d, table, count, i) == FindSection(e, table, count, i)
    decreases count - i
  {
    if i < count {
      EntryUnchanged(d, e, table + 40 * i);
      SearchUnchanged(d, e, table, count, i + 1);
    }
  }

  lemma TableUnchanged(d: bytes, e: bytes, h: Headers, s: Section)
    requires AgreeElsewhere(d, e, h, s) && DDE_SIZE + NAME_OFF < s.raw && h.table + 40 * h.count <= |d|
    requires Clear(h, s, h.table, h.table + 40 * h.count)
    ensures FindSection(d, h.table, h.count, 0) == FindSection(e, h.table, h.count, 0)
  {
    var end := h.table + 40 * h.count;
    ClearUnchanged(d, e, h, s, h.table, end);
    forall k | h.table <= k < end
      ensures d[k] == e[k]
    {
      SameAt(d, e, h.table, end, k);
    }
    SearchUnchanged(d, e, h.table, h.count, 0);
  }

  lemma SameTableSameSection(d: bytes, e: bytes, h: Headers)
    requires h.opt + 168 <= |d| == |e| && Load(d, h.opt + 108, 4) == Load(e, h.opt + 108, 4)
    requires h.table + 40 * h.count <= |d| ==> FindSection(d, h.table, h.count, 0) == FindSection(e, h.table, h.count, 0)
    ensures LocateSection(d, h) == LocateSection(e, h)
  {
  }

  lemma SectionUnchanged(d: bytes, e: bytes, h: Headers, s: Section)
    requires h.opt + 168 <= |d| && Disjoint(h, s) && AgreeElsewhere(d, e, h, s)
    requires LocateSection(d, h) == Ok(s)
    ensures LocateSection(e, h) == Ok(s)
  {
    ClearUnchanged(d, e, h, s, h.opt + 108, h.opt + 112);
    TableUnchanged(d, e, h, s);
    SameTableSameSection(d, e, h);
  }

  /** What a finished image holds in its PE headers. */
  ghost predicate HeadersStamped(d: bytes, h: Headers, s: Section)
  {
    && h.opt + 168 <= |d|
    && WithNxBit(Load(d, h.opt + 70, 2)) == Load(d, h.opt + 70, 2)
    && d[h.opt + 160..h.opt + 164] == ToLE(s.rva, 4)
    && d[h.opt + 164..h.opt + 168] == ToLE(DDE_SIZE, 4)
  }

  /** What it holds in the debug directory entry and the RSDS signature. */
  ghost predicate EntryStamped(d: bytes, s: Section)
  {
    && s.off + 32 <= |d|
    && d[s.off + 20..s.off + 24] == ToLE((s.rva + DDE_SIZE) % U32, 4)
    && d[s.off + 24..s.off + 28] == ToLE((s.off + DDE_SIZE) % U32, 4)
    && Load(d, s.off + 12, 4) == 2
    && Load(d, s.Rsds(), 4) == RSDS_SIGNATURE
  }

  /** What it holds in the module name and GUID fields: the name, and its own id. */
  ghost predicate Sealed(d: bytes, s: Section, name: bytes)
  {
    && DDE_SIZE + NAME_OFF < s.raw && s.off + s.raw <= |d|
    && d[s.NameField()..s.off + s.raw] == NameBytes(name, s.raw - DDE_SIZE - NAME_OFF)
    && d[s.Guid()..s.Guid() + 16] == BuildId.Id(d, s.Guid())
  }

  lemma NxBitSticks(d: bytes, opt: nat)
    requires opt + 168 <= |d|
    ensures var v := Load(SetNx(d, opt), opt + 70, 2); WithNxBit(v) == v
  {
    var v := Load(d, opt + 70, 2);
    FromLEBound(d[opt + 70..opt + 72]);
    WordSizes();
    StoreThenLoad(WithNxBit(v), 2);
    StoredRegion(d, opt + 70, ToLE(WithNxBit(v), 2));
  }

  lemma DirectoryWritten(d: bytes, h: Headers, s: Section)
    requires h.opt + 168 <= |d|
    requires WithNxBit(Load(d, h.opt + 70, 2)) == Load(d, h.opt + 70, 2)
    ensures HeadersStamped(SetDirectory(d, h.opt, s.rva), h, s)
    ensures forall k :: 0 <= k < |d| && !(h.opt + 160 <= k < h.opt + 168) ==> SetDirectory(d, h.opt, s.rva)[k] == d[k]
  {
    var e := SetDirectory(d, h.opt, s.rva);
    assert e[h.opt + 160..h.opt + 164] == ToLE(s.rva, 4);
    LoadAgrees(d, e, h.opt + 70, 2);
  }

  lemma EntryWritten(d: bytes, s: Section)
    requires s.off + DDE_SIZE + NAME_OFF <= |d|
    requires Load(d, s.off + 12, 4) == 2 && Load(SetEntry(d, s), s.Rsds(), 4) == RSDS_SIGNATURE
    ensures EntryStamped(SetEntry(d, s), s)
    ensures forall k :: 0 <= k < |d| && !(s.off + 20 <= k < s.off + 28) ==> SetEntry(d, s)[k] == d[k]
  {
    var e := SetEntry(d, s);
    assert e[s.off + 20..s.off + 24] == ToLE((s.rva + DDE_SIZE) % U32, 4);
    LoadAgrees(d, e, s.off + 12, 4);
  }

  lemma HeadersCarry(d: bytes, e: bytes, h: Headers, s: Section)
    requires HeadersStamped(d, h, s) && |d| == |e|
    requires d[h.opt + 70..h.opt + 72] == e[h.opt + 70..h.opt + 72]
    requires d[h.opt + 160..h.opt + 168] == e[h.opt + 160..h.opt + 168]
    ensures HeadersStamped(e, h, s)
  {
    assert d[h.opt + 160..h.opt + 164] == d[h.opt + 160..h.opt + 168][..4] == e[h.opt + 160..h.opt + 164];
    assert d[h.opt + 164..h.opt + 168] == d[h.opt + 160..h.opt + 168][4..] == e[h.opt + 164..h.opt + 168];
  }

  lemma EntryCarry(d: bytes, e: bytes, s: Section)
    requires EntryStamped(d, s) && |d| == |e|
    requires forall k :: s.off <= k < s.off + 32 ==> d[k] == e[k]
    ensures EntryStamped(e, s)
  {
    LoadAgrees(d, e, s.off + 12, 4);
    LoadAgrees(d, e, s.Rsds(), 4);
    assert d[s.off + 20..s.off + 24] == e[s.off + 20..s.off + 24];
    assert d[s.off + 24..s.off + 28] == e[s.off + 24..s.off + 28];
  }

  lemma SealWritten(d: bytes, s: Section, name: bytes)
    requires DDE_SIZE + NAME_OFF < s.raw && s.off + s.raw <= |d|
    ensures Sealed(Seal(d, s, name), s, name)
    ensures forall k :: 0 <= k < |d| && !(s.NameField() <= k < s.off + s.raw) && !(s.Guid() <= k < s.Guid() + 16)
              ==> Seal(d, s, name)[k] == d[k]
  {
    var named := SetName(d, s, name);
    var sealed := Seal(d, s, name);
    assert BuildId.AgreeOutsideGuid(named, sealed, s.Guid());
    BuildId.IdIgnoresGuid(named, sealed, s.Guid());
  }

  lemma DirectoryKeeps(d: bytes, opt: nat, rva: nat, lo: nat, hi: nat)
    requires opt + 168 <= |d| && lo <= hi <= |d| && Apart(opt + 160, opt + 168, lo, hi)
    ensures SetDirectory(d, opt, rva)[lo..hi] == d[lo..hi]
  {
  }

  lemma EntryKeeps(d: bytes, s: Section, lo: nat, hi: nat)
    requires s.off + DDE_SIZE <= |d| && lo <= hi <= |d| && Apart(s.off + 20, s.off + 28, lo, hi)
    ensures SetEntry(d, s)[lo..hi] == d[lo..hi]
  {
  }

  lemma SealKeeps(d: bytes, s: Section, name: bytes, lo: nat, hi: nat)
    requires DDE_SIZE + NAME_OFF < s.raw && s.off + s.raw <= |d| && lo <= hi <= |d|
    requires Apart(s.Guid(), s.Guid() + 16, lo, hi) && Apart(s.NameField(), s.off + s.raw, lo, hi)
    ensures Seal(d, s, name)[lo..hi] == d[lo..hi]
  {
    var named := SetName(d, s, name);
    assert named[lo..hi] == d[lo..hi];
  }

  /** What comes after the header fields does not disturb them. */
  lemma SectionStagesKeep(d: bytes, s: Section, name: bytes, lo: nat, hi: nat)
    requires DDE_SIZE + NAME_OFF < s.raw && s.off + s.raw <= |d| && lo <= hi <= |d| && ClearOfSection(s, lo, hi)
    ensures Seal(SetEntry(d, s), s, name)[lo..hi] == d[lo..hi]
  {
    EntryKeeps(d, s, lo, hi);
    SealKeeps(SetEntry(d, s), s, name, lo, hi);
  }

  lemma SectionStagesAgree(d: bytes, h: Headers, s: Section, name: bytes)
    requires DDE_SIZE + NAME_OFF < s.raw && s.off + s.raw <= |d|
    ensures AgreeElsewhere(d, Seal(SetEntry(d, s), s, name), h, s)
  {
    SealWritten(SetEntry(d, s), s, name);
  }

  lemma DirectoryAgrees(d: bytes, e: bytes, h: Headers, s: Section)
    requires h.opt + 168 <= |d| && AgreeElsewhere(SetDirectory(d, h.opt, s.rva), e, h, s)
    ensures AgreeElsewhere(d, e, h, s)
  {
  }

  /** Once the checks pass, the three stages leave every field stamped and no other byte changed. */
  lemma StagesStamp(d1: bytes, h: Headers, s: Section, name: bytes, d3: bytes)
    requires h.opt + 168 <= |d1| && s.off + s.raw <= |d1| && Disjoint(h, s)
    requires WithNxBit(Load(d1, h.opt + 70, 2)) == Load(d1, h.opt + 70, 2)
    requires PatchEntry(d1, h.opt, s) == Ok(d3)
    ensures HeadersStamped(Seal(d3, s, name), h, s)
    ensures EntryStamped(Seal(d3, s, name), s)
    ensures Sealed(Seal(d3, s, name), s, name)
    ensures AgreeElsewhere(d1, Seal(d3, s, name), h, s)
  {
    var d2 := SetDirectory(d1, h.opt, s.rva);
    SectionStagesAgree(d2, h, s, name);
    DirectoryAgrees(d1, Seal(d3, s, name), h, s);
    HeadersFinish(d1, h, s, name);
    SealWritten(d3, s, name);
    EntryWritten(d2, s);
    EntryCarry(d3, Seal(d3, s, name), s);
  }

  lemma HeadersFinish(d1: bytes, h: Headers, s: Section, name: bytes)
    requires h.opt + 168 <= |d1| && s.off + s.raw <= |d1| && Disjoint(h, s)
    requires WithNxBit(Load(d1, h.opt + 70, 2)) == Load(d1, h.opt + 70, 2)
    ensures HeadersStamped(Seal(SetEntry(SetDirectory(d1, h.opt, s.rva), s), s, name), h, s)
  {
    var d2 := SetDirectory(d1, h.opt, s.rva);
    DirectoryWritten(d1, h, s);
    SectionStagesKeep(d2, s, name, h.opt + 70, h.opt + 72);
    SectionStagesKeep(d2, s, name, h.opt + 160, h.opt + 168);
    HeadersCarry(d2, Seal(SetEntry(d2, s), s, name), h, s);
  }

  lemma NxAgrees(file: bytes, h: Headers, s: Section, out: bytes)
    requires h.opt + 168 <= |file|
    requires AgreeElsewhere(SetNx(file, h.opt), out, h, s)
    ensures AgreeElsewhere(file, out, h, s)
  {
    var d1 := SetNx(file, h.opt);
    forall k | 0 <= k < |file| && !Patched(h, s, k)
      ensures file[k] == out[k]
    {
      assert d1[k] == out[k];
    }
  }

  /** A successful run leaves every field stamped and no other byte changed. */
  lemma StampWrites(file: bytes, d1: bytes, d3: bytes, out: bytes, h: Headers, s: Section, name: bytes)
    requires h.opt + 168 <= |file| && Disjoint(h, s) && s.off + s.raw <= |file|
    requires d1 == SetNx(file, h.opt)
    requires PatchEntry(d1, h.opt, s) == Ok(d3)
    requires out == Seal(d3, s, name)
    ensures AgreeElsewhere(file, out, h, s) && AgreeElsewhere(d1, out, h, s)
    ensures HeadersStamped(out, h, s) && EntryStamped(out, s) && Sealed(out, s, name)
  {
    NxBitSticks(file, h.opt);
    StagesStamp(d1, h, s, name, d3);
    NxAgrees(file, h, s, out);
  }

  lemma NxFixed(d: bytes, h: Headers, s: Section)
    requires HeadersStamped(d, h, s)
    ensures SetNx(d, h.opt) == d
  {
    var nx := d[h.opt + 70..h.opt + 72];
    LoadThenStore(nx);
    StoreSame(d, h.opt + 70, nx);
  }

  lemma DirectoryFixed(d: bytes, h: Headers, s: Section)
    requires HeadersStamped(d, h, s)
    ensures SetDirectory(d, h.opt, s.rva) == d
  {
    StoreSame(d, h.opt + 160, ToLE(s.rva, 4));
    StoreSame(d, h.opt + 164, ToLE(DDE_SIZE, 4));
  }

  lemma EntryFixed(d: bytes, s: Section)
    requires EntryStamped(d, s)
    ensures SetEntry(d, s) == d
  {
    StoreSame(d, s.off + 20, ToLE((s.rva + DDE_SIZE) % U32, 4));
    StoreSame(d, s.off + 24, ToLE((s.off + DDE_SIZE) % U32, 4));
  }

  lemma SealFixed(d: bytes, name: bytes, s: Section)
    requires Sealed(d, s, name)
    ensures Seal(d, s, name) == d
  {
    StoreSame(d, s.NameField(), NameBytes(name, s.raw - DDE_SIZE - NAME_OFF));
    StoreSame(d, s.Guid(), BuildId.Id(d, s.Guid()));
  }

  lemma StampedIsFixed(d: bytes, name: bytes, h: Headers, s: Section)
    requires HeadersStamped(d, h, s) && EntryStamped(d, s) && Sealed(d, s, name)
    requires ParseHeaders(d) == Ok(h) && LocateSection(d, h) == Ok(s)
    ensures Stamp(d, name) == Ok(d)
    ensures PrintId(d) == Ok(BuildId.Id(d, s.Guid()))
  {
    NxFixed(d, h, s);
    EntryIsFixed(d, h, s);
    SealFixed(d, name, s);
  }

  lemma EntryIsFixed(d: bytes, h: Headers, s: Section)
    requires HeadersStamped(d, h, s) && EntryStamped(d, s) && DDE_SIZE + NAME_OFF < s.raw && s.off + s.raw <= |d|
    ensures PatchEntry(d, h.opt, s) == Ok(d)
  {
    DirectoryFixed(d, h, s);
    EntryFixed(d, s);
  }

  /**
    Stamping a stamped image with the same name changes nothing, and a print
    query on it returns the stored id, which is the id of the image itself.
   */
  lemma StampIsIdempotent(file: bytes, name: bytes, h: Headers, s: Section)
    requires ParseHeaders(file) == Ok(h) && LocateSection(SetNx(file, h.opt), h) == Ok(s) && Disjoint(h, s)
    requires Stamp(file, name).Ok?
    ensures var out := Stamp(file, name).value;
            && Stamp(out, name) == Ok(out)
            && s.Guid() + 16 <= |out|
            && PrintId(out) == Ok(BuildId.Id(out, s.Guid()))
            && out[s.Guid()..s.Guid() + 16] == BuildId.Id(out, s.Guid())
  {
    var out := Stamp(file, name).value;
    var d1 := SetNx(file, h.opt);
    StampWrites(file, d1, PatchEntry(d1, h.opt, s).value, out, h, s, name);
    HeadersUnchanged(file, out, h, s);
    SectionUnchanged(d1, out, h, s);
    StampedIsFixed(out, name, h, s);
  }

  /** Two patched buffers that differ in one visible byte are sealed with different ids. */
  lemma SealTellsBuffersApart(d: bytes, e: bytes, s: Section, name: bytes, at: nat)
    requires DDE_SIZE + NAME_OFF < s.raw && s.off + s.raw <= |d| == |e|
    requires BuildId.OneByteEdit(d, e, s.Guid(), at) && !(s.NameField() <= at < s.off + s.raw)
    ensures Seal(d, s, name)[s.Guid()..s.Guid() + 16] != Seal(e, s, name)[s.Guid()..s.Guid() + 16]
  {
    var nd, ne := SetName(d, s, name), SetName(e, s, name);
    assert BuildId.OneByteEdit(nd, ne, s.Guid(), at);
    BuildId.IdSeparatesOneByteEdits(nd, ne, s.Guid(), at);
    StoredRegion(nd, s.Guid(), BuildId.Id(nd, s.Guid()));
    StoredRegion(ne, s.Guid(), BuildId.Id(ne, s.Guid()));
  }

  lemma PatchEntryIs(d: bytes, opt: nat, s: Section, d3: bytes)
    requires opt + 168 <= |d| && DDE_SIZE + NAME_OFF < s.raw && s.off + s.raw <= |d| && PatchEntry(d, opt, s) == Ok(d3)
    ensures d3 == SetEntry(SetDirectory(d, opt, s.rva), s)
  {
  }

  /** Patching and sealing leave the flags word of the first stage alone. */
  lemma NxKept(d1: bytes, h: Headers, s: Section, name: bytes, d3: bytes)
    requires h.opt + 168 <= |d1| && s.off + s.raw <= |d1| && Disjoint(h, s) && PatchEntry(d1, h.opt, s) == Ok(d3)
    ensures Seal(d3, s, name)[h.opt + 70..h.opt + 72] == d1[h.opt + 70..h.opt + 72]
  {
    DirectoryKeeps(d1, h.opt, s.rva, h.opt + 70, h.opt + 72);
    SectionStagesKeep(SetDirectory(d1, h.opt, s.rva), s, name, h.opt + 70, h.opt + 72);
    PatchEntryIs(d1, h.opt, s, d3);
  }

  /** All that a finished image holds in the bytes a run may change. */
  ghost predicate FieldsHold(d: bytes, h: Headers, s: Section, name: bytes)
  {
    HeadersStamped(d, h, s) && EntryStamped(d, s) && Sealed(d, s, name)
  }

  ghost predicate FlagsHold(d: bytes, h: Headers, flags: bytes)
  {
    |flags| == 2 && h.opt + 168 <= |d| && d[h.opt + 70..h.opt + 72] == flags
  }

  /** The flags word a run writes. */
  function FlagsOf(file: bytes, h: Headers): bytes
    requires h.opt + 168 <= |file|
  {
    ToLE(WithNxBit(Load(file, h.opt + 70, 2)), 2)
  }

  /** The stages of a successful run. */
  lemma StampStages(file: bytes, name: bytes, h: Headers, s: Section) returns (d3: bytes)
    requires ParseHeaders(file) == Ok(h) && LocateSection(SetNx(file, h.opt), h) == Ok(s) && Stamp(file, name).Ok?
    requires DDE_SIZE + NAME_OFF < s.raw
    ensures s.off + s.raw <= |file| && PatchEntry(SetNx(file, h.opt), h.opt, s) == Ok(d3)
    ensures Stamp(file, name) == Ok(Seal(d3, s, name))
  {
    d3 := PatchEntry(SetNx(file, h.opt), h.opt, s).value;
  }

  lemma FlagsSet(file: bytes, h: Headers)
    requires h.opt + 168 <= |file|
    ensures FlagsHold(SetNx(file, h.opt), h, FlagsOf(file, h))
  {
    StoredRegion(file, h.opt + 70, FlagsOf(file, h));
  }

  lemma FlagsWritten(d1: bytes, d3: bytes, name: bytes, h: Headers, s: Section, flags: bytes)
    requires FlagsHold(d1, h, flags) && s.off + s.raw <= |d1| && Disjoint(h, s) && PatchEntry(d1, h.opt, s) == Ok(d3)
    ensures FlagsHold(Seal(d3, s, name), h, flags)
  {
    NxKept(d1, h, s, name, d3);
  }

  lemma SameAt(d: bytes, e: bytes, lo: nat, hi: nat, k: nat)
    requires lo <= k < hi <= |d| == |e| && d[lo..hi] == e[lo..hi]
    ensures d[k] == e[k]
  {
    assert d[lo..hi][k - lo] == d[k] && e[lo..hi][k - lo] == e[k];
  }

  /** Outside the GUID, the changed bytes of two finished images with the same flags are the same. */
  lemma SameHeaderFields(d: bytes, e: bytes, h: Headers, s: Section, flags: bytes, k: nat)
    requires |d| == |e| && HeadersStamped(d, h, s) && HeadersStamped(e, h, s) && FlagsHold(d, h, flags) && FlagsHold(e, h, flags)
    requires h.opt + 70 <= k < h.opt + 72 || h.opt + 160 <= k < h.opt + 168
    ensures d[k] == e[k]
  {
    if k < h.opt + 72 {
      SameAt(d, e, h.opt + 70, h.opt + 72, k);
    } else if k < h.opt + 164 {
      SameAt(d, e, h.opt + 160, h.opt + 164, k);
    } else {
      SameAt(d, e, h.opt + 164, h.opt + 168, k);
    }
  }

  lemma SameEntryFields(d: bytes, e: bytes, s: Section, k: nat)
    requires |d| == |e| && EntryStamped(d, s) && EntryStamped(e, s) && s.off + 20 <= k < s.off + 28
    ensures d[k] == e[k]
  {
    if k < s.off + 24 {
      SameAt(d, e, s.off + 20, s.off + 24, k);
    } else {
      SameAt(d, e, s.off + 24, s.off + 28, k);
    }
  }

  lemma SameFields(d: bytes, e: bytes, h: Headers, s: Section, name: bytes, flags: bytes, k: nat)
    requires |d| == |e| && FieldsHold(d, h, s, name) && FieldsHold(e, h, s, name) && FlagsHold(d, h, flags) && FlagsHold(e, h, flags)
    requires k < |d| && Patched(h, s, k) && !(s.Guid() <= k < s.Guid() + 16)
    ensures d[k] == e[k]
  {
    if h.opt + 70 <= k < h.opt + 72 || h.opt + 160 <= k < h.opt + 168 {
      SameHeaderFields(d, e, h, s, flags, k);
    } else if s.off + 20 <= k < s.off + 28 {
      SameEntryFields(d, e, s, k);
    } else {
      SameAt(d, e, s.NameField(), s.off + s.raw, k);
    }
  }

  /** Two files with the same headers that differ, outside what a run overwrites, in the byte at `at` and no other. */
  ghost predicate OneByteApart(file: bytes, other: bytes, h: Headers, s: Section, at: nat)
  {
    && |file| == |other| && at < |file| && file[at] != other[at] && !Patched(h, s, at) && h.opt + 168 <= |file|
    && (forall k :: 0 <= k < |file| && k != at && !Patched(h, s, k) ==> file[k] == other[k])
    && FlagsOf(file, h) == FlagsOf(other, h)
  }

  lemma FinishedApart(file: bytes, other: bytes, a: bytes, b: bytes, name: bytes, h: Headers, s: Section, at: nat, flags: bytes)
    requires OneByteApart(file, other, h, s, at) && AgreeElsewhere(file, a, h, s) && AgreeElsewhere(other, b, h, s)
    requires FieldsHold(a, h, s, name) && FieldsHold(b, h, s, name) && FlagsHold(a, h, flags) && FlagsHold(b, h, flags)
    ensures BuildId.OneByteEdit(a, b, s.Guid(), at)
  {
    forall k | 0 <= k < |a| && k != at && !(s.Guid() <= k < s.Guid() + 16)
      ensures a[k] == b[k]
    {
      if Patched(h, s, k) {
        SameFields(a, b, h, s, name, flags, k);
      }
    }
  }

  lemma SealsApart(file: bytes, other: bytes, d3: bytes, e3: bytes, name: bytes, h: Headers, s: Section, at: nat)
    requires OneByteApart(file, other, h, s, at) && Disjoint(h, s) && s.off + s.raw <= |file|
    requires PatchEntry(SetNx(file, h.opt), h.opt, s) == Ok(d3) && PatchEntry(SetNx(other, h.opt), h.opt, s) == Ok(e3)
    ensures BuildId.OneByteEdit(Seal(d3, s, name), Seal(e3, s, name), s.Guid(), at)
    ensures Sealed(Seal(d3, s, name), s, name) && Sealed(Seal(e3, s, name), s, name)
  {
    var a, b := Seal(d3, s, name), Seal(e3, s, name);
    StampWrites(file, SetNx(file, h.opt), d3, a, h, s, name);
    StampWrites(other, SetNx(other, h.opt), e3, b, h, s, name);
    FlagsSet(file, h);
    FlagsSet(other, h);
    FlagsWritten(SetNx(file, h.opt), d3, name, h, s, FlagsOf(file, h));
    FlagsWritten(SetNx(other, h.opt), e3, name, h, s, FlagsOf(file, h));
    FinishedApart(file, other, a, b, name, h, s, at, FlagsOf(file, h));
  }

  lemma IdsApart(a: bytes, b: bytes, s: Section, name: bytes, at: nat)
    requires BuildId.OneByteEdit(a, b, s.Guid(), at) && Sealed(a, s, name) && Sealed(b, s, name)
    ensures a[s.Guid()..s.Guid() + 16] != b[s.Guid()..s.Guid() + 16]
  {
    BuildId.IdSeparatesOneByteEdits(a, b, s.Guid(), at);
  }

  /** Stamping such files under one name gives them different ids. */
  lemma StampsTellBuildsApart(file: bytes, other: bytes, name: bytes, h: Headers, s: Section, at: nat)
    requires OneByteApart(file, other, h, s, at) && Disjoint(h, s)
    requires ParseHeaders(file) == Ok(h) && LocateSection(SetNx(file, h.opt), h) == Ok(s) && Stamp(file, name).Ok?
    requires ParseHeaders(other) == Ok(h) && LocateSection(SetNx(other, h.opt), h) == Ok(s) && Stamp(other, name).Ok?
    ensures var a, b := Stamp(file, name).value, Stamp(other, name).value;
      s.Guid() + 16 <= |a| == |b| && a[s.Guid()..s.Guid() + 16] != b[s.Guid()..s.Guid() + 16]
  {
    var d3 := StampStages(file, name, h, s);
    var e3 := StampStages(other, name, h, s);
    SealsApart(file, other, d3, e3, name, h, s, at);
    IdsApart(Seal(d3, s, name), Seal(e3, s, name), s, name, at);
  }
}
