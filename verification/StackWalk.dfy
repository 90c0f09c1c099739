/**
  Backtrace recovery of scripts/rsod-decode.py: the sparse (address, value)
  pairs of a stack dump are packed into one little-endian buffer, and the
  saved frame pointers in it are followed.
 */
module StackWalk {
  import opened Bytes
  import opened Outcomes

  datatype Sample = Sample(addr: nat, value: nat)

  /** Python's order on pairs. */
  predicate Leq(p: Sample, q: Sample)
  {
    p.addr < q.addr || (p.addr == q.addr && p.value <= q.value)
  }

  ghost predicate Sorted(s: seq<Sample>)
  {
    forall i, j :: 0 <= i < j < |s| ==> Leq(s[i], s[j])
  }

  function Insert(p: Sample, s: seq<Sample>): (r: seq<Sample>)
    ensures |r| == |s| + 1
    ensures forall q :: q in r <==> q == p || q in s
  {
    if s == [] || Leq(p, s[0]) then [p] + s else [s[0]] + Insert(p, s[1..])
  }

  lemma {:induction false} InsertSorted(p: Sample, s: seq<Sample>)
    requires Sorted(s)
    ensures Sorted(Insert(p, s))
  {
    if s != [] && !Leq(p, s[0]) {
      InsertSorted(p, s[1..]);
      forall q | q in Insert(p, s[1..])
        ensures Leq(s[0], q)
      {
        if q != p {
          assert q in s[1..];
          var j :| 1 <= j < |s| && s[j] == q;
        }
      }
    }
  }

  /** `sorted(pairs)`. */
  function Sort(s: seq<Sample>): (r: seq<Sample>)
    ensures |r| == |s| && Sorted(r)
    ensures forall q :: q in r <==> q in s
  {
    if s == [] then []
    else
      var rest := Sort(s[1..]);
      InsertSorted(s[0], rest);
      Insert(s[0], rest)
  }

  // --- The window --------------------------------------------------------------------

  const MAX_SPAN: nat := 4 * 1024 * 1024
  const WORD: nat := 0x1_0000_0000_0000_0000

  /** `[p for p in s if p[0] >= cut]`. */
  function Above(s: seq<Sample>, cut: nat): seq<Sample>
  {
    if s == [] then []
    else if s[0].addr >= cut then [s[0]] + Above(s[1..], cut)
    else Above(s[1..], cut)
  }

  lemma {:induction false} AboveMembers(s: seq<Sample>, cut: nat, q: Sample)
    ensures q in Above(s, cut) <==> q in s && q.addr >= cut
  {
    if s != [] {
      AboveMembers(s[1..], cut, q);
      assert s == [s[0]] + s[1..];
    }
  }

  lemma LeastFirst(s: seq<Sample>, rest: seq<Sample>)
    requires Sorted(s) && s != [] && Sorted(rest) && forall q :: q in rest ==> q in s[1..]
    ensures Sorted([s[0]] + rest)
  {
    forall j | 0 <= j < |rest|
      ensures Leq(s[0], rest[j])
    {
      assert rest[j] in s[1..];
      var k :| 1 <= k < |s| && s[k] == rest[j];
    }
  }

  lemma {:induction false} AboveSorted(s: seq<Sample>, cut: nat)
    requires Sorted(s) && s != [] && Last(s).addr >= cut
    ensures Sorted(Above(s, cut)) && Above(s, cut) != [] && Last(Above(s, cut)) == Last(s)
  {
    if |s| == 1 {
      assert Above(s, cut) == [s[0]];
    } else {
      var tail := s[1..];
      assert Last(tail) == Last(s);
      AboveSorted(tail, cut);
      var rest := Above(tail, cut);
      forall q | q in rest
        ensures q in tail
      {
        AboveMembers(tail, cut, q);
      }
      if s[0].addr >= cut {
        LeastFirst(s, rest);
        assert Last([s[0]] + rest) == Last(rest);
      }
    }
  }

  function Last(s: seq<Sample>): Sample
    requires s != []
  {
    s[|s| - 1]
  }

  lemma WindowRange(s: seq<Sample>)
    requires Sorted(s) && s != []
    ensures forall k :: 0 <= k < |s| ==> s[0].addr <= s[k].addr <= Last(s).addr
  {
    forall k | 0 <= k < |s|
      ensures s[0].addr <= s[k].addr <= Last(s).addr
    {
      assert k > 0 ==> Leq(s[0], s[k]);
      assert k < |s| - 1 ==> Leq(s[k], Last(s));
    }
  }

  /** The samples that are packed: all of them, or those in the top 4 MiB. */
  function Window(ordered: seq<Sample>): seq<Sample>
    requires ordered != []
  {
    var hi := Last(ordered).addr;
    if hi + 8 > ordered[0].addr + MAX_SPAN then Above(ordered, hi + 8 - MAX_SPAN) else ordered
  }

  lemma WindowIs(ordered: seq<Sample>)
    requires ordered != [] && Sorted(ordered)
    ensures IsWindow(ordered, Window(ordered))
  {
    var hi := Last(ordered).addr;
    if hi + 8 > ordered[0].addr + MAX_SPAN {
      TopWindow(ordered, hi + 8 - MAX_SPAN);
    } else {
      WholeWindow(ordered);
    }
  }

  /** What of a dump is packed, in address order. */
  function Kept(pairs: seq<Sample>): (r: seq<Sample>)
    requires pairs != []
    ensures IsWindow(Sort(pairs), r)
  {
    WindowIs(Sort(pairs));
    Window(Sort(pairs))
  }

  /** `r` has the samples of the top 4 MiB of `s`, the last one included, in order. */
  ghost predicate IsWindow(s: seq<Sample>, r: seq<Sample>)
    requires s != []
  {
    && r != [] && Sorted(r) && Last(r) == Last(s)
    && forall q :: q in r <==> q in s && q.addr + MAX_SPAN >= Last(s).addr + 8
  }

  lemma TopWindow(s: seq<Sample>, cut: nat)
    requires Sorted(s) && s != [] && Last(s).addr + 8 == cut + MAX_SPAN
    ensures IsWindow(s, Above(s, cut))
  {
    AboveSorted(s, cut);
    forall q
      ensures q in Above(s, cut) <==> q in s && q.addr + MAX_SPAN >= Last(s).addr + 8
    {
      AboveMembers(s, cut, q);
    }
  }

  lemma WholeWindow(s: seq<Sample>)
    requires Sorted(s) && s != [] && Last(s).addr + 8 <= s[0].addr + MAX_SPAN
    ensures IsWindow(s, s)
  {
    WindowRange(s);
  }

  // --- The buffer ----------------------------------------------------------------------

  /** `struct.pack_into("<Q", ...)` where it fits. */
  function Put(buf: bytes, base: nat, p: Sample): (r: bytes)
    ensures |r| == |buf|
  {
    if base <= p.addr && p.addr - base + 8 <= |buf| then Store(buf, p.addr - base, ToLE(p.value % WORD, 8)) else buf
  }

  function Packed(s: seq<Sample>, base: nat, size: nat): (r: bytes)
    ensures |r| == size
  {
    if s == [] then seq(size, _ => 0) else Put(Packed(s[..|s| - 1], base, size), base, s[|s| - 1])
  }

  /** The value of the last sample of `addr`, or 0 if there is none. */
  function LastAt(s: seq<Sample>, addr: nat): nat
  {
    if s == [] then 0
    else if s[|s| - 1].addr == addr then s[|s| - 1].value
    else LastAt(s[..|s| - 1], addr)
  }

  lemma PutLoadSame(buf: bytes, at: nat, value: nat)
    requires at + 8 <= |buf|
    ensures Load(Store(buf, at, ToLE(value % WORD, 8)), at, 8) == value % WORD
  {
    StoredRegion(buf, at, ToLE(value % WORD, 8));
    WordSizes();
    StoreThenLoad(value % WORD, 8);
  }

  lemma PutLoad(buf: bytes, base: nat, p: Sample, addr: nat)
    requires base <= addr && addr - base + 8 <= |buf|
    requires p.addr == addr || p.addr + 8 <= addr || addr + 8 <= p.addr
    ensures Load(Put(buf, base, p), addr - base, 8) ==
      if p.addr == addr then p.value % WORD else Load(buf, addr - base, 8)
  {
    var at := addr - base;
    if p.addr == addr {
      PutLoadSame(buf, at, p.value);
    } else if base <= p.addr && p.addr - base + 8 <= |buf| {
      OtherRegion(buf, p.addr - base, ToLE(p.value % WORD, 8), at, at + 8);
    }
  }

  predicate Aligned(addr: nat)
  {
    addr % 8 == 0
  }

  ghost predicate AlignedAt(s: seq<Sample>)
  {
    forall k :: 0 <= k < |s| ==> Aligned(s[k].addr)
  }

  lemma AlignedApart(a: nat, b: nat)
    requires Aligned(a) && Aligned(b) && a != b
    ensures a + 8 <= b || b + 8 <= a
  {
  }

  /** A word of the buffer is the last sample packed there, or 0 in a hole. */
  lemma {:induction false} PackedLoad(s: seq<Sample>, base: nat, size: nat, addr: nat)
    requires AlignedAt(s) && Aligned(addr) && base <= addr && addr - base + 8 <= size
    ensures Load(Packed(s, base, size), addr - base, 8) == LastAt(s, addr) % WORD
  {
    if s == [] {
      var zeros := Packed(s, base, size);
      ZeroLoad(zeros[addr - base..addr - base + 8]);
    } else {
      var front, p := s[..|s| - 1], s[|s| - 1];
      PackedLoad(front, base, size, addr);
      if p.addr != addr {
        AlignedApart(p.addr, addr);
      }
      PutLoad(Packed(front, base, size), base, p, addr);
    }
  }

  /** In a sorted list the last sample of an address is the one with the greatest value. */
  lemma {:induction false} LastAtIsGreatest(s: seq<Sample>, addr: nat, p: Sample)
    requires Sorted(s) && p in s && p.addr == addr
    ensures Sample(addr, LastAt(s, addr)) in s && p.value <= LastAt(s, addr)
  {
    var n := |s|;
    var k :| 0 <= k < n && s[k] == p;
    if s[n - 1].addr == addr {
      assert s[n - 1] == Sample(addr, LastAt(s, addr));
      assert k < n - 1 ==> Leq(s[k], s[n - 1]);
    } else {
      assert s[..n - 1][k] == p;
      LastAtIsGreatest(s[..n - 1], addr, p);
    }
  }

  lemma {:induction false} LastAtHole(s: seq<Sample>, addr: nat)
    requires forall k :: 0 <= k < |s| ==> s[k].addr != addr
    ensures LastAt(s, addr) == 0
  {
    if s != [] {
      LastAtHole(s[..|s| - 1], addr);
    }
  }

  datatype Memory = Memory(base: nat, mem: bytes)

  /** The buffer from the first to the last of the samples. */
  function MemoryOf(kept: seq<Sample>): Memory
    requires kept != [] && Sorted(kept)
  {
    WindowRange(kept);
    Memory(kept[0].addr, Packed(kept, kept[0].addr, Last(kept).addr + 8 - kept[0].addr))
  }

  /** `_build_stack_mem` as a function. */
  function StackMem(pairs: seq<Sample>): Memory
  {
    if pairs == [] then Memory(0, []) else MemoryOf(Kept(pairs))
  }

  /** `struct.pack_into("<Q", buf, off, value)`. */
  method PackInto(buf: array<byte>, off: nat, value: nat)
    requires off + 8 <= buf.Length
    modifies buf
    ensures buf[..] == Store(old(buf[..]), off, ToLE(value, 8))
  {
    var word := ToLE(value, 8);
    for k := 0 to 8
      invariant forall i :: 0 <= i < buf.Length ==>
        buf[i] == if off <= i < off + k then word[i - off] else old(buf[i])
    {
      buf[off + k] := word[k];
    }
  }

  /** The packing loop. */
  method PackAll(ordered: seq<Sample>, base: nat, size: nat) returns (mem: bytes)
    requires forall k :: 0 <= k < |ordered| ==> base <= ordered[k].addr
    ensures mem == Packed(ordered, base, size)
  {
    var buf := new byte[size](_ => 0);
    for k := 0 to |ordered|
      invariant buf[..] == Packed(ordered[..k], base, size)
    {
      assert ordered[..k + 1][..k] == ordered[..k];
      var off := ordered[k].addr - base;
      if off + 8 <= buf.Length {
        PackInto(buf, off, ordered[k].value % WORD);
      }
    }
    assert ordered[..|ordered|] == ordered;
    mem := buf[..];
  }

  /** `_build_stack_mem`. */
  method BuildStackMem(pairs: seq<Sample>) returns (base: nat, mem: bytes)
    ensures Memory(base, mem) == StackMem(pairs)
  {
    if pairs == [] {
      return 0, [];
    }
    base, mem := PackKept(Kept(pairs));
  }

  /** From the first sample kept to the last. */
  method PackKept(kept: seq<Sample>) returns (base: nat, mem: bytes)
    requires kept != [] && Sorted(kept)
    ensures Memory(base, mem) == MemoryOf(kept)
  {
    WindowRange(kept);
    base := kept[0].addr;
    mem := PackAll(kept, base, Last(kept).addr + 8 - base);
  }

  // --- What the buffer holds -------------------------------------------------------------

  ghost predicate AllAligned(pairs: seq<Sample>)
  {
    forall p :: p in pairs ==> Aligned(p.addr)
  }

  /** The word at `addr` lies within 4 MiB of the top of the dump. */
  ghost predicate NearTop(pairs: seq<Sample>, addr: nat)
  {
    forall q :: q in pairs ==> q.addr + 8 <= addr + MAX_SPAN
  }

  /** A sampled word near the top lies in the buffer. */
  lemma SampleIsInside(pairs: seq<Sample>, p: Sample)
    requires p in pairs && NearTop(pairs, p.addr)
    ensures Covered(StackMem(pairs), p.addr)
  {
    var kept := Kept(pairs);
    assert Last(Sort(pairs)) in pairs;
    assert p in kept;
    var k :| 0 <= k < |kept| && kept[k] == p;
    WindowRange(kept);
  }

  /** `addr` is a word of the buffer. */
  predicate Covered(m: Memory, addr: nat)
  {
    m.base <= addr && addr + 8 <= m.base + |m.mem|
  }

  /** The word of the buffer at `addr`. */
  function Word(m: Memory, addr: nat): nat
    requires Covered(m, addr)
  {
    Load(m.mem, addr - m.base, 8)
  }

  lemma WordIsLast(kept: seq<Sample>, addr: nat)
    requires kept != [] && Sorted(kept) && AlignedAt(kept) && Aligned(addr) && Covered(MemoryOf(kept), addr)
    ensures Word(MemoryOf(kept), addr) == LastAt(kept, addr) % WORD
  {
    WindowRange(kept);
    PackedLoad(kept, kept[0].addr, Last(kept).addr + 8 - kept[0].addr, addr);
  }

  lemma WindowAligned(pairs: seq<Sample>)
    requires AllAligned(pairs) && pairs != []
    ensures AlignedAt(Kept(pairs))
  {
    var kept := Kept(pairs);
    forall k | 0 <= k < |kept|
      ensures Aligned(kept[k].addr)
    {
      assert kept[k] in kept;
    }
  }

  lemma KeptIffCovered(pairs: seq<Sample>, p: Sample)
    requires p in pairs && StackMem(pairs).base <= p.addr
    ensures p in Kept(pairs)
  {
    var kept := Kept(pairs);
    assert kept[0] in kept;
  }

  /** A word that was sampled holds the greatest of its values: the value, where it was sampled once. */
  lemma SampledWord(pairs: seq<Sample>, p: Sample) returns (q: Sample)
    requires AllAligned(pairs) && p in pairs && Covered(StackMem(pairs), p.addr)
    ensures q in pairs && q.addr == p.addr && p.value <= q.value
    ensures Word(StackMem(pairs), p.addr) == q.value % WORD
  {
    var kept := Kept(pairs);
    KeptIffCovered(pairs, p);
    WindowAligned(pairs);
    WordIsLast(kept, p.addr);
    LastAtIsGreatest(kept, p.addr, p);
    q := Sample(p.addr, LastAt(kept, p.addr));
  }

  /** A word in a hole of the dump reads 0. */
  lemma HoleReadsZero(pairs: seq<Sample>, addr: nat)
    requires AllAligned(pairs) && Aligned(addr) && pairs != [] && Covered(StackMem(pairs), addr)
    requires forall p :: p in pairs ==> p.addr != addr
    ensures Word(StackMem(pairs), addr) == 0
  {
    var kept := Kept(pairs);
    forall k | 0 <= k < |kept|
      ensures kept[k].addr != addr
    {
      assert kept[k] in kept;
    }
    LastAtHole(kept, addr);
    WindowAligned(pairs);
    WordIsLast(kept, addr);
  }

  // --- The walk ------------------------------------------------------------------------

  const MAX_FRAMES: nat := 48

  /** `cur` can be a frame pointer: a word pair of the buffer, aligned. */
  predicate Walkable(m: Memory, cur: nat)
  {
    cur != 0 && Aligned(cur) && Covered(m, cur) && Covered(m, cur + 8)
  }

  /** The saved frame pointer and return address of a frame. */
  datatype Link = Link(saved: nat, ret: nat)

  /** The frame at `cur`, if there can be one and it has a return address. */
  function Peek(m: Memory, cur: nat): Option<Link>
  {
    if !Walkable(m, cur) || Word(m, cur + 8) == 0 then None else Some(Link(Word(m, cur), Word(m, cur + 8)))
  }

  /** How frames are read; a walk does not depend on where from. */
  type Reader = nat -> Option<Link>

  function Reading(m: Memory): Reader
  {
    (cur: nat) => Peek(m, cur)
  }

  /** The return addresses from frame pointer `cur` on. */
  function Walk(peek: Reader, cur: nat, monotonic: bool, frames: nat): seq<nat>
    decreases frames
  {
    if frames == 0 then []
    else
      match peek(cur)
      case None => []
      case Some(link) =>
        if monotonic && link.saved <= cur then [link.ret]
        else [link.ret] + Walk(peek, link.saved, monotonic, frames - 1)
  }

  /** The walk's result behind the return address it is seeded with, if any. */
  function Seeded(firstRet: nat, walked: seq<nat>): seq<nat>
  {
    if firstRet != 0 then [firstRet] + walked else walked
  }

  method ReadFrame(m: Memory, cur: nat) returns (link: Option<Link>)
    ensures link == Peek(m, cur)
  {
    if cur == 0 || cur % 8 != 0 || cur < m.base || cur + 16 > m.base + |m.mem| {
      return None;
    }
    var savedFp, savedRet := Word(m, cur), Word(m, cur + 8);
    if savedRet == 0 {
      return None;
    }
    return Some(Link(savedFp, savedRet));
  }

  /** The loop of the walk, appending to `seed`. */
  method FollowFrames(seed: seq<nat>, fp: nat, m: Memory, monotonic: bool, maxFrames: nat) returns (out: seq<nat>)
    ensures out == seed + Walk(Reading(m), fp, monotonic, maxFrames)
  {
    out := seed;
    var cur: nat := fp;
    for k := 0 to maxFrames
      invariant out + Walk(Reading(m), cur, monotonic, maxFrames - k) == seed + Walk(Reading(m), fp, monotonic, maxFrames)
    {
      WalkStops(Reading(m), cur, monotonic, maxFrames - k, out);
      var link := ReadFrame(m, cur);
      if link == None {
        return;
      }
      out := out + [link.value.ret];
      if monotonic && link.value.saved <= cur {
        return;
      }
      cur := link.value.saved;
    }
    NoFramesLeft(Reading(m), cur, monotonic, out);
  }

  lemma NoFramesLeft(peek: Reader, cur: nat, monotonic: bool, out: seq<nat>)
    ensures out + Walk(peek, cur, monotonic, 0) == out
  {
  }

  /** `_walk_fp_chain`. */
  method WalkFpChain(fp: nat, firstRet: nat, m: Memory, monotonic: bool, maxFrames: nat)
    returns (out: seq<nat>)
    ensures out == Seeded(firstRet, Walk(Reading(m), fp, monotonic, maxFrames))
  {
    out := [];
    if firstRet != 0 {
      out := [firstRet];
    }
    out := FollowFrames(out, fp, m, monotonic, maxFrames);
  }

  /** One turn of the walk behind what is already collected. */
  lemma WalkStops(peek: Reader, cur: nat, monotonic: bool, frames: nat, out: seq<nat>)
    requires frames > 0
    ensures out + Walk(peek, cur, monotonic, frames) ==
      match peek(cur)
      case None => out
      case Some(link) =>
        if monotonic && link.saved <= cur then out + [link.ret]
        else out + [link.ret] + Walk(peek, link.saved, monotonic, frames - 1)
  {
  }

  // --- Chains of frames -------------------------------------------------------------------

  /** A chain of frames on the stack, and the frame pointer saved in its last frame. */
  datatype Chain = Stop(fp: nat) | Frame(fp: nat, ret: nat, caller: Chain)

  function Returns(chain: Chain): seq<nat>
  {
    match chain
    case Stop(_) => []
    case Frame(_, ret, caller) => [ret] + Returns(caller)
  }

  function Depth(chain: Chain): nat
  {
    match chain
    case Stop(_) => 0
    case Frame(_, _, caller) => 1 + Depth(caller)
  }

  /** Every link of the chain is there, and frames go up the stack if they must. */
  ghost predicate Linked(peek: Reader, chain: Chain, monotonic: bool)
  {
    match chain
    case Stop(_) => true
    case Frame(fp, ret, caller) =>
      && peek(fp) == Some(Link(caller.fp, ret))
      && (monotonic && caller.Frame? ==> fp < caller.fp)
      && Linked(peek, caller, monotonic)
  }

  /** The walk cannot go past the end of the chain. */
  ghost predicate Ended(peek: Reader, chain: Chain, monotonic: bool)
  {
    match chain
    case Stop(fp) => peek(fp) == None
    case Frame(fp, _, Stop(saved)) => (monotonic && saved <= fp) || peek(saved) == None
    case Frame(_, _, caller) => Ended(peek, caller, monotonic)
  }

  /** The first `n` entries, or all. */
  function Take(s: seq<nat>, n: nat): seq<nat>
  {
    if |s| <= n then s else s[..n]
  }

  lemma TakeCons(x: nat, s: seq<nat>, n: nat)
    requires n > 0
    ensures Take([x] + s, n) == [x] + Take(s, n - 1)
  {
  }

  /** The walk recovers the chain it starts on: all of it, or, if the limit comes first, as much as the limit allows. */
  lemma {:induction false} WalkIsChain(peek: Reader, chain: Chain, monotonic: bool, frames: nat)
    requires Linked(peek, chain, monotonic) && (Depth(chain) >= frames || Ended(peek, chain, monotonic))
    ensures Walk(peek, chain.fp, monotonic, frames) == Take(Returns(chain), frames)
    decreases chain
  {
    if frames > 0 && chain.Frame? {
      TakeCons(chain.ret, Returns(chain.caller), frames);
      if !(monotonic && chain.caller.fp <= chain.fp) {
        WalkIsChain(peek, chain.caller, monotonic, frames - 1);
      }
    }
  }

  /** On any memory whatever, what the walk returns is a chain that is there, no longer than the limit. */
  lemma {:induction false} WalkInventsNothing(peek: Reader, cur: nat, monotonic: bool, frames: nat)
    returns (chain: Chain)
    ensures chain.fp == cur && Linked(peek, chain, monotonic) && Depth(chain) <= frames
    ensures Returns(chain) == Walk(peek, cur, monotonic, frames)
    decreases frames
  {
    chain := Stop(cur);
    if frames > 0 && peek(cur).Some? {
      var link := peek(cur).value;
      if monotonic && link.saved <= cur {
        chain := Frame(cur, link.ret, Stop(link.saved));
      } else {
        var caller := WalkInventsNothing(peek, link.saved, monotonic, frames - 1);
        chain := Frame(cur, link.ret, caller);
      }
    }
  }

  // --- Chains in a dump -----------------------------------------------------------------------

  /** Both words of every frame were sampled, near the top of the dump, and frames go up the stack if they must. */
  ghost predicate OnStack(pairs: seq<Sample>, chain: Chain, monotonic: bool)
  {
    match chain
    case Stop(_) => true
    case Frame(fp, ret, caller) =>
      && fp != 0 && 0 < ret < WORD && caller.fp < WORD
      && Sample(fp, caller.fp) in pairs && Sample(fp + 8, ret) in pairs && NearTop(pairs, fp)
      && (monotonic && caller.Frame? ==> fp < caller.fp)
      && OnStack(pairs, caller, monotonic)
  }

  /** There is no frame at `fp`: it cannot be a frame pointer, or no return address was sampled. */
  ghost predicate NoFrameAt(pairs: seq<Sample>, fp: nat)
  {
    fp == 0 || !Aligned(fp) || Unsampled(pairs, fp + 8)
  }

  /** The chain ends there: in no frame or, where frames must go up, in a frame pointer that does not. */
  ghost predicate EndsThere(pairs: seq<Sample>, chain: Chain, monotonic: bool)
  {
    match chain
    case Stop(fp) => NoFrameAt(pairs, fp)
    case Frame(fp, _, Stop(saved)) => (monotonic && saved <= fp) || NoFrameAt(pairs, saved)
    case Frame(_, _, caller) => EndsThere(pairs, caller, monotonic)
  }

  ghost predicate SampledOnce(pairs: seq<Sample>)
  {
    forall p, q :: p in pairs && q in pairs && p.addr == q.addr ==> p == q
  }

  /** `m` holds the samples of the top 4 MiB, and 0 in the holes. */
  ghost predicate IsImage(m: Memory, pairs: seq<Sample>)
  {
    && (forall p :: p in pairs && NearTop(pairs, p.addr) ==> Covered(m, p.addr) && Word(m, p.addr) == p.value % WORD)
    && (forall addr :: Aligned(addr) && Covered(m, addr) && Unsampled(pairs, addr) ==> Word(m, addr) == 0)
  }

  ghost predicate Unsampled(pairs: seq<Sample>, addr: nat)
  {
    forall p :: p in pairs ==> p.addr != addr
  }

  lemma SampledOnceWord(pairs: seq<Sample>, p: Sample)
    requires AllAligned(pairs) && SampledOnce(pairs) && p in pairs && NearTop(pairs, p.addr)
    ensures Covered(StackMem(pairs), p.addr) && Word(StackMem(pairs), p.addr) == p.value % WORD
  {
    SampleIsInside(pairs, p);
    var q := SampledWord(pairs, p);
    assert q == p;
  }

  /** The buffer is the image of every dump of aligned addresses, each sampled once. */
  lemma BufferIsImage(pairs: seq<Sample>)
    requires AllAligned(pairs) && SampledOnce(pairs)
    ensures IsImage(StackMem(pairs), pairs)
  {
    var m := StackMem(pairs);
    forall p | p in pairs && NearTop(pairs, p.addr)
      ensures Covered(m, p.addr) && Word(m, p.addr) == p.value % WORD
    {
      SampledOnceWord(pairs, p);
    }
    forall addr: nat | Aligned(addr) && Covered(m, addr) && Unsampled(pairs, addr)
      ensures Word(m, addr) == 0
    {
      HoleReadsZero(pairs, addr);
    }
  }

  lemma NoFrameThere(m: Memory, pairs: seq<Sample>, fp: nat)
    requires IsImage(m, pairs) && NoFrameAt(pairs, fp)
    ensures Peek(m, fp) == None
  {
    if Walkable(m, fp) {
      assert Unsampled(pairs, fp + 8) && Aligned(fp + 8);
    }
  }

  lemma FrameThere(m: Memory, pairs: seq<Sample>, fp: nat, saved: nat, ret: nat)
    requires AllAligned(pairs) && IsImage(m, pairs) && NearTop(pairs, fp)
    requires fp != 0 && saved < WORD && 0 < ret < WORD && Sample(fp, saved) in pairs && Sample(fp + 8, ret) in pairs
    ensures Peek(m, fp) == Some(Link(saved, ret))
  {
    assert Aligned(Sample(fp, saved).addr);
    assert Covered(m, Sample(fp, saved).addr) && Word(m, Sample(fp, saved).addr) == saved;
    assert NearTop(pairs, fp + 8);
    assert Covered(m, Sample(fp + 8, ret).addr) && Word(m, Sample(fp + 8, ret).addr) == ret;
  }

  lemma {:induction false} SampledIsLinked(m: Memory, pairs: seq<Sample>, chain: Chain, monotonic: bool)
    requires AllAligned(pairs) && IsImage(m, pairs) && OnStack(pairs, chain, monotonic)
    ensures Linked(Reading(m), chain, monotonic)
    ensures EndsThere(pairs, chain, monotonic) ==> Ended(Reading(m), chain, monotonic)
    decreases chain
  {
    match chain
    case Stop(fp) =>
      if NoFrameAt(pairs, fp) {
        NoFrameThere(m, pairs, fp);
      }
    case Frame(fp, ret, caller) =>
      FrameThere(m, pairs, fp, caller.fp, ret);
      SampledIsLinked(m, pairs, caller, monotonic);
  }

  /** On either architecture, the walk over the packed dump recovers a sampled chain. */
  lemma WalkRecoversChain(pairs: seq<Sample>, chain: Chain, monotonic: bool, frames: nat)
    requires AllAligned(pairs) && SampledOnce(pairs) && OnStack(pairs, chain, monotonic)
    requires Depth(chain) >= frames || EndsThere(pairs, chain, monotonic)
    ensures Walk(Reading(StackMem(pairs)), chain.fp, monotonic, frames) == Take(Returns(chain), frames)
  {
    BufferIsImage(pairs);
    SampledIsLinked(StackMem(pairs), pairs, chain, monotonic);
    WalkIsChain(Reading(StackMem(pairs)), chain, monotonic, frames);
  }

  // --- The recovered backtrace -----------------------------------------------------------

  type Registers = map<string, nat>

  /** `regs.get(a) or regs.get(b) or 0`. */
  function NonZero(regs: Registers, a: string, b: string): nat
  {
    if a in regs && regs[a] != 0 then regs[a] else if b in regs then regs[b] else 0
  }

  /** `_first_present` over two names. */
  function FirstPresent(regs: Registers, a: string, b: string): Option<nat>
  {
    if a in regs then Some(regs[a]) else if b in regs then Some(regs[b]) else None
  }

  datatype Start = Start(fp: nat, link: nat, fault: Option<nat>, monotonic: bool)

  /** The registers a walk starts from, by architecture. */
  function StartOf(regs: Registers, aarch64: bool): Start
  {
    if aarch64 then
      Start(NonZero(regs, "FP", "X29"), NonZero(regs, "LR", "LR"), FirstPresent(regs, "ELR", "ELR"), false)
    else
      Start(NonZero(regs, "RBP", "BP"), 0, FirstPresent(regs, "RIP", "IP"), true)
  }

  /** The fault, then the walked addresses, less a first one equal to the fault. */
  function Trace(fault: Option<nat>, walked: seq<nat>): seq<nat>
  {
    match fault
    case None => walked
    case Some(pc) => [pc] + if walked != [] && walked[0] == pc then walked[1..] else walked
  }

  /** The backtrace of a crash, from what was packed and the registers. */
  function Backtrace(m: Memory, s: Start, maxFrames: nat): seq<nat>
  {
    if m.mem == [] || s.fp == 0 || !Aligned(s.fp) then []
    else Trace(s.fault, Seeded(s.link, Walk(Reading(m), s.fp, s.monotonic, maxFrames)))
  }

  /** The last loop: the frames behind the fault address. */
  method Assemble(fault: Option<nat>, walked: seq<nat>) returns (pcs: seq<nat>)
    ensures pcs == Trace(fault, walked)
  {
    pcs := [];
    if fault.Some? {
      pcs := [fault.value];
    }
    for i := 0 to |walked|
      invariant pcs == Trace(fault, walked[..i])
    {
      TraceNext(fault, walked, i);
      if !(i == 0 && pcs != [] && walked[i] == pcs[0]) {
        pcs := pcs + [walked[i]];
      }
    }
    assert walked[..|walked|] == walked;
  }

  /** `recover_backtrace_via_fp`. */
  method RecoverBacktrace(pairs: seq<Sample>, regs: Registers, aarch64: bool, maxFrames: nat := MAX_FRAMES)
    returns (pcs: seq<nat>)
    ensures pcs == Backtrace(StackMem(pairs), StartOf(regs, aarch64), maxFrames)
  {
    var base, mem := BuildStackMem(pairs);
    if mem == [] {
      return [];
    }
    var s := StartOf(regs, aarch64);
    if s.fp == 0 || s.fp % 8 != 0 {
      return [];
    }
    var walked := WalkFpChain(s.fp, s.link, Memory(base, mem), s.monotonic, maxFrames);
    pcs := Assemble(s.fault, walked);
  }

  lemma TraceNext(fault: Option<nat>, walked: seq<nat>, i: nat)
    requires i < |walked|
    ensures Trace(fault, walked[..i + 1]) ==
      if i == 0 && fault == Some(walked[0]) then Trace(fault, walked[..i])
      else Trace(fault, walked[..i]) + [walked[i]]
  {
    var now, next := walked[..i], walked[..i + 1];
    assert next == now + [walked[i]];
    if i > 0 {
      assert next[0] == now[0] && next[1..] == now[1..] + [walked[i]];
    }
  }

  /** The start of a walk on a sampled chain is not turned away. */
  lemma ChainIsWalked(pairs: seq<Sample>, chain: Chain, monotonic: bool)
    requires AllAligned(pairs) && chain.Frame? && OnStack(pairs, chain, monotonic)
    ensures StackMem(pairs).mem != [] && chain.fp != 0 && Aligned(chain.fp)
  {
    var first := Sample(chain.fp, chain.caller.fp);
    assert first in pairs;
    SampleIsInside(pairs, first);
  }

  /**
    `trace` is the fault address, then the return addresses, less a first one
    that repeats it; without a fault address, just those.
   */
  ghost predicate FaultThenReturns(trace: seq<nat>, fault: Option<nat>, rets: seq<nat>)
  {
    match fault
    case None => trace == rets
    case Some(pc) =>
      && trace != [] && trace[0] == pc
      && (rets != [] && rets[0] == pc ==> trace[1..] == rets[1..])
      && (rets == [] || rets[0] != pc ==> trace[1..] == rets)
  }

  /**
    An x64 crash whose stack dump samples every frame of a call chain, each
    word once, within 4 MiB of its top: the backtrace is the fault address
    followed by the chain's return addresses, in order, up to the frame limit,
    less a first one that repeats the fault address.
   */
  lemma BacktraceIsChain(pairs: seq<Sample>, regs: Registers, chain: Chain, maxFrames: nat)
    requires AllAligned(pairs) && SampledOnce(pairs)
    requires chain.Frame? && OnStack(pairs, chain, true) && (Depth(chain) >= maxFrames || EndsThere(pairs, chain, true))
    requires if "RBP" in regs && regs["RBP"] != 0 then chain.fp == regs["RBP"] else "BP" in regs && chain.fp == regs["BP"]
    ensures var trace, found := Backtrace(StackMem(pairs), StartOf(regs, false), maxFrames), Returns(chain);
      var rets := if |found| <= maxFrames then found else found[..maxFrames];
      && ("RIP" in regs ==> FaultThenReturns(trace, Some(regs["RIP"]), rets))
      && ("RIP" !in regs && "IP" in regs ==> FaultThenReturns(trace, Some(regs["IP"]), rets))
      && ("RIP" !in regs && "IP" !in regs ==> trace == rets)
  {
    ChainIsWalked(pairs, chain, true);
    WalkRecoversChain(pairs, chain, true, maxFrames);
  }

  /**
    The same for AArch64, where frames may lie in any order and the link
    register, unless it is zero, comes before what the frames hold.
   */
  lemma BacktraceIsChainBehindLink(pairs: seq<Sample>, regs: Registers, chain: Chain, maxFrames: nat)
    requires AllAligned(pairs) && SampledOnce(pairs)
    requires chain.Frame? && OnStack(pairs, chain, false) && (Depth(chain) >= maxFrames || EndsThere(pairs, chain, false))
    requires if "FP" in regs && regs["FP"] != 0 then chain.fp == regs["FP"] else "X29" in regs && chain.fp == regs["X29"]
    ensures var trace, found := Backtrace(StackMem(pairs), StartOf(regs, true), maxFrames), Returns(chain);
      var frames := if |found| <= maxFrames then found else found[..maxFrames];
      var rets := if "LR" in regs && regs["LR"] != 0 then [regs["LR"]] + frames else frames;
      && ("ELR" in regs ==> FaultThenReturns(trace, Some(regs["ELR"]), rets))
      && ("ELR" !in regs ==> trace == rets)
  {
    ChainIsWalked(pairs, chain, false);
    WalkRecoversChain(pairs, chain, false, maxFrames);
  }

  /** Without a dump, or without a register that can be a frame pointer, there is no backtrace. */
  lemma NothingToWalk(pairs: seq<Sample>, regs: Registers, aarch64: bool, maxFrames: nat)
    requires pairs == []
      || (aarch64 && forall r :: r in regs && r in {"FP", "X29"} ==> regs[r] == 0 || regs[r] % 8 != 0)
      || (!aarch64 && forall r :: r in regs && r in {"RBP", "BP"} ==> regs[r] == 0 || regs[r] % 8 != 0)
    ensures Backtrace(StackMem(pairs), StartOf(regs, aarch64), maxFrames) == []
  {
    assert "FP" in {"FP", "X29"} && "X29" in {"FP", "X29"} && "RBP" in {"RBP", "BP"} && "BP" in {"RBP", "BP"};
  }

  /** A frame pointer outside the dump loses the frames and keeps the link register. */
  lemma LinkSurvives(pairs: seq<Sample>, regs: Registers, maxFrames: nat)
    requires AllAligned(pairs) && SampledOnce(pairs) && pairs != []
    requires "FP" in regs && regs["FP"] != 0 && regs["FP"] % 8 == 0 && Unsampled(pairs, regs["FP"] + 8)
    requires "LR" in regs && regs["LR"] != 0
    ensures var trace := Backtrace(StackMem(pairs), StartOf(regs, true), maxFrames);
      if "ELR" in regs then FaultThenReturns(trace, Some(regs["ELR"]), [regs["LR"]]) else trace == [regs["LR"]]
  {
    BufferIsImage(pairs);
    NoFrameThere(StackMem(pairs), pairs, regs["FP"]);
    BufferIsThere(pairs);
    LinkOnly(StackMem(pairs), StartOf(regs, true), maxFrames);
  }

  lemma LinkOnly(m: Memory, s: Start, maxFrames: nat)
    requires m.mem != [] && s.fp != 0 && s.fp % 8 == 0 && Peek(m, s.fp) == None && s.link != 0
    ensures FaultThenReturns(Backtrace(m, s, maxFrames), s.fault, [s.link])
  {
    assert Walk(Reading(m), s.fp, s.monotonic, maxFrames) == [];
    assert [s.link] + [] == [s.link];
  }

  lemma BufferIsThere(pairs: seq<Sample>)
    requires pairs != []
    ensures StackMem(pairs).mem != []
  {
    var kept := Kept(pairs);
    WindowRange(kept);
  }
}
