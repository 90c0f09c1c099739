/**
  The identity of a PDB, from scripts/rsod-decode.py: how a GUID is printed, and
  the GUID and age a PDB records behind its MSF block indirection.
 */
module PdbIdentity {
  import opened Bytes
  import opened Outcomes
  import opened HexText

  // --- Printed GUIDs ---------------------------------------------------------------------

  const UPPER: string := "0123456789ABCDEF"

  /** An upper-case hexadecimal digit. */
  function Digit(n: nat): char
    requires n < 16
  {
    if n < 10 then '0' + n as char else 'A' + (n - 10) as char
  }

  lemma UpperDigit(n: nat)
    requires n < 16
    ensures UPPER[n] == Digit(n)
  {
  }

  lemma UpperIsDistinct()
    ensures Distinct(UPPER)
  {
    forall i, j | 0 <= i < j < 16
      ensures UPPER[i] != UPPER[j]
    {
      UpperDigit(i);
      UpperDigit(j);
    }
  }

  function Join(parts: seq<string>): string
  {
    if parts == [] then "" else parts[0] + Join(parts[1..])
  }

  /** The fields of a GUID as they are printed, and their widths in digits. */
  function GuidFields(raw: bytes): seq<(nat, nat)>
    requires |raw| >= 16
  {
    [(Load(raw, 0, 4), 8), (Load(raw, 4, 2), 4), (Load(raw, 6, 2), 4), (raw[8], 2), (raw[9], 2),
     (raw[10], 2), (raw[11], 2), (raw[12], 2), (raw[13], 2), (raw[14], 2), (raw[15], 2)]
  }

  function GuidParts(raw: bytes): seq<string>
    requires |raw| >= 16
  {
    var f := GuidFields(raw);
    ["{", Hex(UPPER, f[0].0, 8), "-", Hex(UPPER, f[1].0, 4), "-", Hex(UPPER, f[2].0, 4), "-", Hex(UPPER, f[3].0, 2), Hex(UPPER, f[4].0, 2), "-",
     Hex(UPPER, f[5].0, 2), Hex(UPPER, f[6].0, 2), Hex(UPPER, f[7].0, 2), Hex(UPPER, f[8].0, 2), Hex(UPPER, f[9].0, 2), Hex(UPPER, f[10].0, 2), "}"]
  }

  /** `_guid_str`: empty for a truncated record. */
  function GuidString(raw: bytes): string
  {
    if |raw| < 16 then "" else Join(GuidParts(raw))
  }

  lemma {:induction false} JoinInjective(a: seq<string>, b: seq<string>)
    requires |a| == |b| && (forall k :: 0 <= k < |a| ==> |a[k]| == |b[k]|) && Join(a) == Join(b)
    ensures a == b
  {
    if a != [] {
      var x, y := Join(a[1..]), Join(b[1..]);
      assert a[0] == (a[0] + x)[..|a[0]|] == (b[0] + y)[..|b[0]|] == b[0];
      assert x == (a[0] + x)[|a[0]|..] == (b[0] + y)[|b[0]|..] == y;
      JoinInjective(a[1..], b[1..]);
      assert a == [a[0]] + a[1..] && b == [b[0]] + b[1..];
    }
  }

  /** A little-endian field determines its bytes. */
  lemma LoadInjective(a: bytes, b: bytes, at: nat, width: nat)
    requires at + width <= |a| && at + width <= |b| && Load(a, at, width) == Load(b, at, width)
    ensures a[at..at + width] == b[at..at + width]
  {
    LoadThenStore(a[at..at + width]);
    LoadThenStore(b[at..at + width]);
  }

  lemma FieldsDetermine(a: bytes, b: bytes)
    requires |a| == 16 == |b| && GuidFields(a) == GuidFields(b)
    ensures a == b
  {
    var f, g := GuidFields(a), GuidFields(b);
    assert f[0] == g[0] && f[1] == g[1] && f[2] == g[2] && f[3] == g[3] && f[4] == g[4] && f[5] == g[5];
    assert f[6] == g[6] && f[7] == g[7] && f[8] == g[8] && f[9] == g[9] && f[10] == g[10];
    LoadInjective(a, b, 0, 4);
    LoadInjective(a, b, 4, 2);
    LoadInjective(a, b, 6, 2);
    forall k | 0 <= k < 16
      ensures a[k] == b[k]
    {
      if k < 4 {
        assert a[k] == a[0..4][k] && b[k] == b[0..4][k];
      } else if k < 6 {
        assert a[k] == a[4..6][k - 4] && b[k] == b[4..6][k - 4];
      } else if k < 8 {
        assert a[k] == a[6..8][k - 6] && b[k] == b[6..8][k - 6];
      }
    }
  }

  lemma FieldBounds(raw: bytes)
    requires |raw| == 16
    ensures forall k :: 0 <= k < 11 ==> GuidFields(raw)[k].0 < Power16(GuidFields(raw)[k].1)
  {
    Powers();
    WordSizes();
    FromLEBound(raw[0..4]);
    FromLEBound(raw[4..6]);
    FromLEBound(raw[6..8]);
  }

  /** Where the field stands among the printed parts. */
  function PartIndex(k: nat): nat
  {
    if k < 3 then 2 * k + 1 else if k < 5 then k + 4 else k + 5
  }

  lemma PartIsField(raw: bytes, k: nat)
    requires |raw| == 16 && k < 11
    ensures |GuidFields(raw)| == 11 && |GuidParts(raw)| == 17
    ensures GuidParts(raw)[PartIndex(k)] == Hex(UPPER, GuidFields(raw)[k].0, GuidFields(raw)[k].1)
  {
  }

  lemma SamePartsSameField(a: bytes, b: bytes, k: nat)
    requires |a| == 16 == |b| && GuidParts(a) == GuidParts(b) && k < 11
    ensures GuidFields(a)[k] == GuidFields(b)[k]
  {
    PartIsField(a, k);
    PartIsField(b, k);
    FieldBounds(a);
    FieldBounds(b);
    UpperIsDistinct();
    HexInjective(UPPER, GuidFields(a)[k].0, GuidFields(b)[k].0, GuidFields(a)[k].1);
  }

  /** Two GUIDs that print alike are the same 16 bytes. */
  lemma GuidStringInjective(a: bytes, b: bytes)
    requires |a| == 16 == |b| && GuidString(a) == GuidString(b)
    ensures a == b
  {
    JoinInjective(GuidParts(a), GuidParts(b));
    forall k: nat | k < 11
      ensures GuidFields(a)[k] == GuidFields(b)[k]
    {
      SamePartsSameField(a, b, k);
    }
    FieldsDetermine(a, b);
  }

  // --- Which byte is printed where ----------------------------------------------------------

  /** A byte as it is printed: two digits. */
  function Pair(b: byte): string
  {
    Hex(UPPER, b, 2)
  }

  lemma PairPrints(b: byte)
    ensures Pair(b) == [Digit(b / 16), Digit(b % 16)]
  {
    HexPair(UPPER, b);
    UpperDigit(b / 16);
    UpperDigit(b % 16);
  }

  lemma WordPrints(raw: bytes, at: nat)
    requires at + 2 <= |raw|
    ensures Hex(UPPER, Load(raw, at, 2), 4) == Pair(raw[at + 1]) + Pair(raw[at])
  {
    TwoBytes(raw, at, raw[at], raw[at + 1]);
    HexByte(UPPER, raw[at], raw[at + 1], 2);
  }

  lemma FourIsTwoBytesAndTwo(raw: bytes)
    requires |raw| >= 4
    ensures Load(raw, 0, 4) == raw[0] as nat + 256 * (raw[1] as nat + 256 * Load(raw, 2, 2))
    ensures Load(raw, 0, 2) == raw[0] as nat + 256 * raw[1] as nat
  {
    FourBytes(raw, 0);
    TwoBytes(raw, 0, raw[0], raw[1]);
  }

  lemma LongIsWords(digits: string, raw: bytes)
    requires |digits| == 16 && |raw| >= 4
    ensures Hex(digits, Load(raw, 0, 4), 8) == Hex(digits, Load(raw, 2, 2), 4) + Hex(digits, Load(raw, 0, 2), 4)
  {
    FourIsTwoBytesAndTwo(raw);
    HexWord(digits, raw[0], raw[1], Load(raw, 2, 2), 4, 2);
  }

  lemma LongPrints(raw: bytes)
    requires |raw| >= 4
    ensures Hex(UPPER, Load(raw, 0, 4), 8) == Pair(raw[3]) + Pair(raw[2]) + (Pair(raw[1]) + Pair(raw[0]))
  {
    LongIsWords(UPPER, raw);
    WordPrints(raw, 0);
    WordPrints(raw, 2);
  }

  lemma JoinAt(p: seq<string>, k: nat)
    requires k < |p|
    ensures Join(p[k..]) == p[k] + Join(p[k + 1..])
  {
    assert p[k..][1..] == p[k + 1..];
  }

  /** The last six bytes and the brace. */
  function NodePairs(raw: bytes): string
    requires |raw| == 16
  {
    Pair(raw[10]) + (Pair(raw[11]) + (Pair(raw[12]) + (Pair(raw[13]) + (Pair(raw[14]) + (Pair(raw[15]) + "}")))))
  }

  lemma NodePrints(raw: bytes)
    requires |raw| == 16
    ensures Join(GuidParts(raw)[10..]) == NodePairs(raw)
  {
    var p := GuidParts(raw);
    JoinAt(p, 10);
    JoinAt(p, 11);
    JoinAt(p, 12);
    JoinAt(p, 13);
    JoinAt(p, 14);
    JoinAt(p, 15);
    JoinAt(p, 16);
    assert Join(p[17..]) == "";
    assert "}" + "" == "}";
  }

  lemma JoinFront(p: seq<string>, tail: string)
    requires |p| == 17 && Join(p[10..]) == tail
    ensures Join(p) == p[0] + (p[1] + (p[2] + (p[3] + (p[4] + (p[5] + (p[6] + (p[7] + (p[8] + (p[9] + tail)))))))))
  {
    assert p[0..] == p;
    JoinAt(p, 0);
    JoinAt(p, 1);
    JoinAt(p, 2);
    JoinAt(p, 3);
    JoinAt(p, 4);
    JoinAt(p, 5);
    JoinAt(p, 6);
    JoinAt(p, 7);
    JoinAt(p, 8);
    JoinAt(p, 9);
  }

  /** The three numbers among the parts. */
  lemma NumberParts(raw: bytes)
    requires |raw| == 16
    ensures var p := GuidParts(raw);
      && |p| == 17 && p[1] == Hex(UPPER, Load(raw, 0, 4), 8)
      && p[3] == Hex(UPPER, Load(raw, 4, 2), 4) && p[5] == Hex(UPPER, Load(raw, 6, 2), 4)
  {
  }

  /** The first three fields of a GUID are printed back to front, the others as they are stored. */
  lemma GuidPrintsPairs(raw: bytes)
    requires |raw| == 16
    ensures GuidString(raw) ==
      "{" + (Pair(raw[3]) + Pair(raw[2]) + (Pair(raw[1]) + Pair(raw[0]))
      + ("-" + (Pair(raw[5]) + Pair(raw[4])
      + ("-" + (Pair(raw[7]) + Pair(raw[6])
      + ("-" + (Pair(raw[8]) + (Pair(raw[9])
      + ("-" + (Pair(raw[10]) + (Pair(raw[11]) + (Pair(raw[12]) + (Pair(raw[13]) + (Pair(raw[14]) + (Pair(raw[15]) + "}")))))))))))))))
  {
    NumberParts(raw);
    LongPrints(raw);
    WordPrints(raw, 4);
    WordPrints(raw, 6);
    NodePrints(raw);
    JoinFront(GuidParts(raw), NodePairs(raw));
  }

  // --- The MSF container ------------------------------------------------------------------

  const MAGIC: bytes := [0x4D, 0x69, 0x63, 0x72, 0x6F, 0x73, 0x6F, 0x66, 0x74, 0x20, 0x43, 0x2F, 0x43, 0x2B, 0x2B, 0x20,
                         0x4D, 0x53, 0x46, 0x20, 0x37, 0x2E, 0x30, 0x30, 0x0D, 0x0A, 0x1A, 0x44, 0x53, 0x00, 0x00, 0x00]

  datatype Identity = Identity(guid: string, age: nat)

  function Clip(n: nat, len: nat): nat
  {
    if n <= len then n else len
  }

  /** `f.seek(n * size); f.read(size)`. */
  function Block(file: bytes, size: nat, n: nat): bytes
  {
    file[Clip(n * size, |file|)..Clip((n + 1) * size, |file|)]
  }

  /** `struct.unpack_from("<nI", b, at)`, or nothing where it raises. */
  function Words(b: bytes, at: nat, n: nat): Option<seq<nat>>
  {
    if at + 4 * n <= |b| then Some(seq(n, k requires 0 <= k < n => Load(b, at + 4 * k, 4))) else None
  }

  function Blocks(file: bytes, size: nat, numbers: seq<nat>): bytes
  {
    if numbers == [] then [] else Block(file, size, numbers[0]) + Blocks(file, size, numbers[1..])
  }

  function BlocksFor(bytes: nat, size: nat): nat
    requires size > 0
  {
    (bytes + size - 1) / size
  }

  const NO_STREAM: nat := 0xFFFF_FFFF

  /** How many block numbers the directory lists for a stream. */
  function StreamBlocks(length: nat, size: nat): nat
    requires size > 0
  {
    if length == NO_STREAM then 0 else BlocksFor(length, size)
  }

  /** The block numbers of stream 1, from the directory. */
  function InfoBlocks(dir: bytes, size: nat): Option<seq<nat>>
    requires size > 0
  {
    match Words(dir, 0, 1)
    case None => None
    case Some(count) =>
      match Words(dir, 4, count[0])
      case None => None
      case Some(lengths) =>
        if count[0] < 2 then None
        else
          Words(dir, 4 + 4 * count[0] + 4 * StreamBlocks(lengths[0], size), StreamBlocks(lengths[1], size))
  }

  /** The stream directory, behind the block map. */
  function Directory(file: bytes, size: nat, length: nat, blockMap: nat): Option<bytes>
    requires size > 0
  {
    match Words(Block(file, size, blockMap), 0, BlocksFor(length, size))
    case None => None
    case Some(numbers) =>
      var all := Blocks(file, size, numbers);
      Some(all[..Clip(length, |all|)])
  }

  /** The 16 GUID bytes and the age of an Info stream's first block. */
  datatype RawIdentity = RawIdentity(guid: bytes, age: nat)

  function InfoIdentity(info: bytes): (r: Option<RawIdentity>)
    ensures r.Some? ==> |r.value.guid| == 16
  {
    if |info| < 28 then None else Some(RawIdentity(info[12..28], Load(info, 8, 4)))
  }

  /** `_read_pdb_identity`: what the reader finds, printed. */
  function ReadIdentity(file: bytes): Option<Identity>
  {
    match ReadRawIdentity(file)
    case None => None
    case Some(raw) => Some(Identity(GuidString(raw.guid), raw.age))
  }

  function ReadRawIdentity(file: bytes): (r: Option<RawIdentity>)
    ensures r.Some? ==> |r.value.guid| == 16
  {
    if |file| < 56 || file[..32] != MAGIC then None
    else
      var size, length, blockMap := Load(file, 32, 4), Load(file, 44, 4), Load(file, 52, 4);
      if size == 0 || length == 0 then None
      else
        match Directory(file, size, length, blockMap)
        case None => None
        case Some(dir) =>
          match InfoBlocks(dir, size)
          case None => None
          case Some(numbers) => if numbers == [] then None else InfoIdentity(Block(file, size, numbers[0]))
  }

  // --- Reading inverts laying out -----------------------------------------------------------

  function WordBytes(words: seq<nat>): (b: bytes)
    ensures |b| == 4 * |words|
  {
    if words == [] then [] else ToLE(words[0], 4) + WordBytes(words[1..])
  }

  ghost predicate AreWords(words: seq<nat>)
  {
    forall k :: 0 <= k < |words| ==> words[k] < 0x1_0000_0000
  }

  lemma {:induction false} WordAt(words: seq<nat>, k: nat)
    requires AreWords(words) && k < |words|
    ensures Load(WordBytes(words), 4 * k, 4) == words[k]
  {
    var all, first, rest := WordBytes(words), ToLE(words[0], 4), WordBytes(words[1..]);
    if k == 0 {
      WordSizes();
      StoreThenLoad(words[0], 4);
      assert all[0..4] == first;
    } else {
      WordAt(words[1..], k - 1);
      assert all[4 * k..4 * k + 4] == rest[4 * (k - 1)..4 * (k - 1) + 4];
    }
  }

  ghost predicate HoldsWords(b: bytes, words: seq<nat>)
  {
    |b| == 4 * |words| && forall k :: 0 <= k < |words| ==> Load(b, 4 * k, 4) == words[k]
  }

  lemma WordBytesHold(words: seq<nat>)
    requires AreWords(words)
    ensures HoldsWords(WordBytes(words), words)
  {
    forall k | 0 <= k < |words|
      ensures Load(WordBytes(words), 4 * k, 4) == words[k]
    {
      WordAt(words, k);
    }
  }

  /** Words of the directory come back. */
  lemma WordsBack(b: bytes, words: seq<nat>, at: nat, n: nat)
    requires HoldsWords(b, words) && at + n <= |words|
    ensures Words(b, 4 * at, n) == Some(words[at..at + n])
  {
    var got := Words(b, 4 * at, n).value;
    forall k | 0 <= k < n
      ensures got[k] == words[at + k]
    {
      assert got[k] == Load(b, 4 * at + 4 * k, 4);
      assert 4 * at + 4 * k == 4 * (at + k);
    }
    assert got == words[at..at + n];
  }

  /** The streams of a PDB: their lengths, and the numbers of the blocks each occupies. */
  datatype Streams = Streams(lengths: seq<nat>, numbers: seq<seq<nat>>)

  function Flat(lists: seq<seq<nat>>): seq<nat>
  {
    if lists == [] then [] else lists[0] + Flat(lists[1..])
  }

  /** The words of a stream directory. */
  function DirectoryWords(s: Streams): seq<nat>
  {
    [|s.lengths|] + s.lengths + Flat(s.numbers)
  }

  /** `data`, cut into pieces of `size` bytes, lies in these blocks of the file, a piece at the start of each. */
  ghost predicate Scattered(file: bytes, size: nat, blocks: seq<nat>, data: bytes)
    requires size > 0
    decreases |data|
  {
    if data == [] then blocks == []
    else if |data| <= size then |blocks| == 1 && At(file, blocks[0] * size, data)
    else blocks != [] && At(file, blocks[0] * size, data[..size]) && Scattered(file, size, blocks[1..], data[size..])
  }

  /** `n` blocks, and no fewer, hold `length` bytes. */
  predicate JustHold(n: nat, length: nat, size: nat)
  {
    n * size - size < length <= n * size
  }

  /** What the directory says about the first two streams; stream 0 may be absent. */
  ghost predicate GoodStreams(s: Streams, size: nat)
  {
    && size > 0 && |s.lengths| == |s.numbers| >= 2 && AreWords(DirectoryWords(s))
    && (if s.lengths[0] == 0xFFFF_FFFF then s.numbers[0] == [] else JustHold(|s.numbers[0]|, s.lengths[0], size))
    && s.lengths[1] != 0xFFFF_FFFF && JustHold(|s.numbers[1]|, s.lengths[1], size)
  }

  /**
    `file` is a PDB: the superblock gives block size, directory length and the
    place of the block map; the block map lists the blocks of the directory; the
    directory lists the blocks of each stream; stream 1 starts with version,
    signature, age and GUID. Blocks may lie anywhere and in any order.
   */
  ghost predicate IsPdb(file: bytes, size: nat, s: Streams, blockMap: nat, dirBlocks: seq<nat>, info: bytes, guid: bytes, age: nat)
  {
    && GoodStreams(s, size) && AreWords(dirBlocks) && |file| >= 56 && file[..32] == MAGIC
    && Load(file, 32, 4) == size && Load(file, 44, 4) == 4 * |DirectoryWords(s)| && Load(file, 52, 4) == blockMap
    && 4 * |dirBlocks| <= size && At(file, blockMap * size, WordBytes(dirBlocks))
    && Scattered(file, size, dirBlocks, WordBytes(DirectoryWords(s)))
    && |info| == s.lengths[1] && Scattered(file, size, s.numbers[1], info)
    && 28 <= size && 28 <= |info| && Load(info, 8, 4) == age && info[12..28] == guid
  }

  // The parts of it as the reader gets at them.

  lemma BlockHolds(file: bytes, size: nat, n: nat, x: bytes)
    requires size > 0 && |x| <= size && At(file, n * size, x)
    ensures x <= Block(file, size, n)
  {
    assert (n + 1) * size == n * size + size;
  }

  lemma WholeBlock(file: bytes, size: nat, n: nat, x: bytes)
    requires size > 0 && |x| == size && At(file, n * size, x)
    ensures Block(file, size, n) == x
  {
    assert (n + 1) * size == n * size + size;
  }

  /** The blocks, read one after another, start with the data. */
  lemma {:induction false} BlocksHold(file: bytes, size: nat, blocks: seq<nat>, data: bytes)
    requires size > 0 && Scattered(file, size, blocks, data)
    ensures data <= Blocks(file, size, blocks)
    decreases |data|
  {
    if 0 < |data| <= size {
      BlockHolds(file, size, blocks[0], data);
    } else if data != [] {
      WholeBlock(file, size, blocks[0], data[..size]);
      BlocksHold(file, size, blocks[1..], data[size..]);
      assert data == data[..size] + data[size..];
    }
  }

  lemma BlocksForIs(n: nat, length: nat, size: nat)
    requires size > 0 && JustHold(n, length, size)
    ensures BlocksFor(length, size) == n
  {
    QuotientIsUnique(length + size - 1, size, n, length + size - 1 - n * size);
  }

  lemma {:induction false} ScatteredJustHold(file: bytes, size: nat, blocks: seq<nat>, data: bytes)
    requires size > 0 && Scattered(file, size, blocks, data)
    ensures JustHold(|blocks|, |data|, size)
    decreases |data|
  {
    if |data| > size {
      ScatteredJustHold(file, size, blocks[1..], data[size..]);
      assert |blocks| * size == (|blocks| - 1) * size + size;
    }
  }

  lemma DirectoryParts(s: Streams)
    requires |s.lengths| == |s.numbers| >= 2
    ensures var all, n, a, b := DirectoryWords(s), |s.lengths|, |s.numbers[0]|, |s.numbers[1]|;
      && 1 + n + a + b <= |all| && all[0..1] == [n] && all[1..1 + n] == s.lengths
      && all[1 + n + a..1 + n + a + b] == s.numbers[1]
  {
    var more := Flat(s.numbers[1..][1..]);
    assert Flat(s.numbers) == s.numbers[0] + Flat(s.numbers[1..]);
    assert Flat(s.numbers[1..]) == s.numbers[1..][0] + more;
    FlatParts(|s.lengths|, s.lengths, s.numbers[0], s.numbers[1], more);
  }

  lemma FlatParts(count: nat, lengths: seq<nat>, first: seq<nat>, second: seq<nat>, more: seq<nat>)
    ensures var all, n, a, b := [count] + lengths + (first + (second + more)), |lengths|, |first|, |second|;
      && all[0..1] == [count] && all[1..1 + n] == lengths && all[1 + n + a..1 + n + a + b] == second
  {
  }

  /** The directory gives back the blocks of stream 1. */
  lemma DirectoryReads(s: Streams, size: nat)
    requires GoodStreams(s, size)
    ensures InfoBlocks(WordBytes(DirectoryWords(s)), size) == Some(s.numbers[1])
  {
    var all, n, a, b := DirectoryWords(s), |s.lengths|, |s.numbers[0]|, |s.numbers[1]|;
    var dir := WordBytes(all);
    if s.lengths[0] != NO_STREAM {
      BlocksForIs(a, s.lengths[0], size);
    }
    BlocksForIs(b, s.lengths[1], size);
    DirectoryParts(s);
    WordBytesHold(all);
    WordsBack(dir, all, 0, 1);
    WordsBack(dir, all, 1, n);
    WordsBack(dir, all, 1 + n + a, b);
    assert 4 * (1 + n + a) == 4 + 4 * n + 4 * a;
  }

  lemma PrefixLoad(w: bytes, b: bytes, at: nat)
    requires w <= b && at + 4 <= |w|
    ensures Load(b, at, 4) == Load(w, at, 4)
  {
    assert b[at..at + 4] == w[at..at + 4];
  }

  lemma WordOfPrefix(b: bytes, words: seq<nat>, k: nat)
    requires AreWords(words) && WordBytes(words) <= b && k < |words|
    ensures 4 * k + 4 <= |b| && Load(b, 4 * k, 4) == words[k]
  {
    WordAt(words, k);
    PrefixLoad(WordBytes(words), b, 4 * k);
  }

  /** A block that starts with these words gives them back. */
  lemma WordsOfPrefix(b: bytes, words: seq<nat>)
    requires AreWords(words) && WordBytes(words) <= b
    ensures Words(b, 0, |words|) == Some(words)
  {
    var got := Words(b, 0, |words|).value;
    forall k | 0 <= k < |words|
      ensures got[k] == words[k]
    {
      WordOfPrefix(b, words, k);
    }
    assert got == words;
  }

  lemma DirectoryFound(file: bytes, size: nat, dir: bytes, blockMap: nat, dirBlocks: seq<nat>)
    requires size > 0 && AreWords(dirBlocks) && 4 * |dirBlocks| <= size
    requires At(file, blockMap * size, WordBytes(dirBlocks)) && Scattered(file, size, dirBlocks, dir)
    ensures Directory(file, size, |dir|, blockMap) == Some(dir)
  {
    BlockHolds(file, size, blockMap, WordBytes(dirBlocks));
    ScatteredJustHold(file, size, dirBlocks, dir);
    BlocksForIs(|dirBlocks|, |dir|, size);
    WordsOfPrefix(Block(file, size, blockMap), dirBlocks);
    BlocksHold(file, size, dirBlocks, dir);
    var all := Blocks(file, size, dirBlocks);
    assert all[..Clip(|dir|, |all|)] == dir;
  }

  /** The first block of a stream shows the identity at its start. */
  lemma InfoRead(file: bytes, size: nat, blocks: seq<nat>, info: bytes)
    requires 28 <= size && 28 <= |info| && Scattered(file, size, blocks, info)
    ensures blocks != [] && InfoIdentity(Block(file, size, blocks[0])) == Some(RawIdentity(info[12..28], Load(info, 8, 4)))
  {
    var piece := if |info| <= size then info else info[..size];
    BlockHolds(file, size, blocks[0], piece);
    var b := Block(file, size, blocks[0]);
    assert b[..|piece|] == piece;
    assert b[12..28] == piece[12..28] == info[12..28];
    assert b[8..12] == piece[8..12] == info[8..12];
  }

  /** The identity of every PDB is read, through both indirections. */
  lemma IdentityReads(file: bytes, size: nat, s: Streams, blockMap: nat, dirBlocks: seq<nat>, info: bytes, guid: bytes, age: nat)
    requires IsPdb(file, size, s, blockMap, dirBlocks, info, guid, age)
    ensures ReadRawIdentity(file) == Some(RawIdentity(guid, age))
    ensures ReadIdentity(file) == Some(Identity(GuidString(guid), age))
  {
    DirectoryFound(file, size, WordBytes(DirectoryWords(s)), blockMap, dirBlocks);
    DirectoryReads(s, size);
    InfoRead(file, size, s.numbers[1], info);
  }

  /** The signature, as it is written. */
  const SIGNATURE := "Microsoft C/C++ MSF 7.00\r\n\U{1A}DS\0\0\0"

  ghost predicate Signed(file: bytes)
  {
    |file| >= |SIGNATURE| && forall k :: 0 <= k < |SIGNATURE| ==> file[k] == SIGNATURE[k] as int
  }

  lemma MagicIsSignature(file: bytes)
    requires |file| >= 32
    ensures Signed(file) <==> file[..32] == MAGIC
  {
    assert |SIGNATURE| == 32;
    assert forall k :: 0 <= k < 32 ==> MAGIC[k] == SIGNATURE[k] as int;
    if file[..32] == MAGIC {
      forall k | 0 <= k < 32
        ensures file[k] == SIGNATURE[k] as int
      {
        assert file[k] == file[..32][k];
      }
    }
  }

  /** What is not signed, or has no blocks or no directory, is no PDB to the reader. */
  lemma UnsignedIsUnreadable(file: bytes)
    requires |file| < 56 || !Signed(file) || Load(file, 32, 4) == 0 || Load(file, 44, 4) == 0
    ensures ReadIdentity(file) == None
  {
    if |file| >= 56 {
      MagicIsSignature(file);
    }
  }

  // --- Well-known GUIDs -----------------------------------------------------------------------

  /** Sixteen zero bytes print as the null GUID. */
  lemma NullGuidPrints()
    ensures GuidString(seq(16, _ => 0)) == "{00000000-0000-0000-0000-000000000000}"
  {
    GuidPrintsPairs(seq(16, _ => 0));
    PairPrints(0);
  }
}
