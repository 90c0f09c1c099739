/**
  The compute scenarios of tools/axbench.c: the FNV mix kernel, the serial
  baseline, the pooled run, and the run in which the BSP takes a share.
  Cell `i` of the pool's memory is `chunks[i].out`.
 */
module AxBench {
  import opened Sequences
  import opened TaskPool
  import opened PoolObject
  import opened WaveDriver

  type Word = bv64

  const SENTINEL: Word := 0xFFFF_FFFF_FFFF_FFFF
  const SIZE_MAX: nat := 0xFFFF_FFFF_FFFF_FFFF

  datatype Chunk = Chunk(input: seq<bv32>, rounds: nat)

  // --- The kernel ---------------------------------------------------------------

  function MixWord(h: Word, x: bv32): (r: Word)
  {
    var h1 := (h ^ (x as bv64)) * 1099511628211;
    var h2 := h1 ^ (h1 >> 23);
    h2 + (h2 << 17)
  }

  function MixPass(h: Word, input: seq<bv32>): (r: Word)
  {
    if input == [] then h else MixWord(MixPass(h, input[..|input| - 1]), input[|input| - 1])
  }

  function MixRounds(h: Word, input: seq<bv32>, rounds: nat): (r: Word)
    decreases rounds
  {
    if rounds == 0 then h else MixPass(MixRounds(h, input, rounds - 1), input)
  }

  function Mix(c: Chunk): (r: Word)
  {
    MixRounds(1469598103934665603, c.input, c.rounds)
  }

  /** A step of the mix, in products and quotients: the FNV prime 0x100_0000_01B3, 2^23 and 2^17 + 1. */
  lemma MixWordIs(h: Word, x: bv32)
    ensures var z := (h ^ (x as bv64)) * 0x100_0000_01B3; MixWord(h, x) == (z ^ (z / 0x80_0000)) * 0x2_0001
  {
  }

  /** A chunk is mixed word by word, all its words once in each round. */
  lemma MixOfRounds(input: seq<bv32>, rounds: nat)
    ensures Mix(Chunk(input, 0)) == 0x1465_0FB0_739D_0383
    ensures Mix(Chunk(input, rounds + 1)) == MixPass(Mix(Chunk(input, rounds)), input)
  {
  }

  lemma {:induction false} MixPassJoins(h: Word, a: seq<bv32>, b: seq<bv32>)
    ensures MixPass(h, a + b) == MixPass(MixPass(h, a), b)
    decreases |b|
  {
    if b == [] {
      assert a + b == a;
    } else {
      MixPassJoins(h, a, b[..|b| - 1]);
      assert (a + b)[..|a + b| - 1] == a + b[..|b| - 1];
    }
  }

  lemma MixPassOfOne(h: Word, x: bv32)
    ensures MixPass(h, []) == h && MixPass(h, [x]) == MixWord(h, x)
  {
    assert [x][..0] == [];
  }

  /** One pass over the words of a chunk. */
  method MixInput(h0: Word, input: seq<bv32>) returns (h: Word)
    ensures h == MixPass(h0, input)
  {
    h := h0;
    for i := 0 to |input|
      invariant h == MixPass(h0, input[..i])
    {
      MixPassNext(h0, input, i);
      h := MixWord(h, input[i]);
    }
    assert input[..|input|] == input;
  }

  lemma MixPassNext(h: Word, input: seq<bv32>, i: nat)
    requires i < |input|
    ensures MixPass(h, input[..i + 1]) == MixWord(MixPass(h, input[..i]), input[i])
  {
    assert input[..i + 1][..i] == input[..i];
  }

  method BenchMix(c: Chunk) returns (h: Word)
    ensures h == Mix(c)
  {
    h := 1469598103934665603;
    for r := 0 to c.rounds
      invariant h == MixRounds(1469598103934665603, c.input, r)
    {
      h := MixInput(h, c.input);
    }
  }

  // --- Accumulators ---------------------------------------------------------------

  function Xor(a: Word, b: Word): (r: Word)
  {
    a ^ b
  }

  lemma WordXorAssociates(a: Word, b: Word, c: Word)
    ensures (a ^ b) ^ c == a ^ (b ^ c)
  {
  }

  lemma XorAssociates(a: Word, b: Word, c: Word)
    ensures Xor(Xor(a, b), c) == Xor(a, Xor(b, c))
  {
    var ab, bc := a ^ b, b ^ c;
    assert Xor(a, b) == ab && Xor(b, c) == bc;
    WordXorAssociates(a, b, c);
  }

  function XorAll(words: seq<Word>): (acc: Word)
  {
    if words == [] then 0 else Xor(XorAll(words[..|words| - 1]), words[|words| - 1])
  }

  lemma {:induction false} XorAllSplit(a: seq<Word>, b: seq<Word>)
    ensures XorAll(a + b) == Xor(XorAll(a), XorAll(b))
    decreases |b|
  {
    if b == [] {
      assert a + b == a;
      XorZero(XorAll(a));
    } else {
      var rest, last := b[..|b| - 1], b[|b| - 1];
      XorAllSplit(a, rest);
      assert (a + b)[..|a + b| - 1] == a + rest;
      XorAssociates(XorAll(a), XorAll(rest), last);
    }
  }

  /** A word taken in twice is gone. */
  lemma XorCancels(a: Word, b: Word)
    ensures Xor(Xor(a, b), b) == a && Xor(b, b) == 0
  {
    assert (a ^ b) ^ b == a;
  }

  lemma XorZero(a: Word)
    ensures Xor(a, 0) == a
  {
  }

  lemma XorAllNext(words: seq<Word>, last: Word)
    ensures XorAll(words + [last]) == Xor(XorAll(words), last)
  {
    assert (words + [last])[..|words|] == words;
  }

  /** The results of the chunks. */
  function Mixes(chunks: seq<Chunk>): (words: seq<Word>)
    ensures |words| == |chunks|
  {
    seq(|chunks|, i requires 0 <= i < |chunks| => Mix(chunks[i]))
  }

  /** The exclusive or of the results. */
  function XorMix(chunks: seq<Chunk>): (acc: Word)
  {
    XorAll(Mixes(chunks))
  }

  lemma XorMixSplit(a: seq<Chunk>, b: seq<Chunk>)
    ensures XorMix(a + b) == Xor(XorMix(a), XorMix(b))
  {
    assert Mixes(a + b) == Mixes(a) + Mixes(b);
    XorAllSplit(Mixes(a), Mixes(b));
  }

  // --- Tasks ------------------------------------------------------------------------

  /** Running chunk `i` stores its result in its own `out` field and nothing else. */
  function ChunkStore(chunks: seq<Chunk>, i: nat): (x: Store<Word>)
    requires i < |chunks|
  {
    Store(i, Mix(chunks[i]))
  }

  function ChunkTasks(chunks: seq<Chunk>, n: nat): (tasks: seq<Task<Word>>)
    requires n <= |chunks|
    ensures |tasks| == n
    ensures forall i :: 0 <= i < n ==> tasks[i] == Task(i, [ChunkStore(chunks, i)])
  {
    seq(n, i requires 0 <= i < n => Task(i, [ChunkStore(chunks, i)]))
  }

  /** The memory in which every chunk below `n` holds its result. */
  ghost predicate Computed(mem: seq<Word>, chunks: seq<Chunk>, lo: nat, hi: nat)
  {
    hi <= |chunks| && hi <= |mem| && forall i :: lo <= i < hi ==> mem[i] == Mix(chunks[i])
  }

  lemma {:induction false} SerialChunks(chunks: seq<Chunk>, n: nat, x: Store<Word>)
    requires n <= |chunks|
    ensures x in Serial(ChunkTasks(chunks, n)) <==> exists i :: 0 <= i < n && x == ChunkStore(chunks, i)
  {
    var tasks := ChunkTasks(chunks, n);
    SerialMembers(tasks, x);
    if k :| 0 <= k < n && x in tasks[k].stores {
      assert x == ChunkStore(chunks, k);
    }
    if i :| 0 <= i < n && x == ChunkStore(chunks, i) {
      assert x in tasks[i].stores;
    }
  }

  /** Chunks write disjoint cells, so no run of them can conflict. */
  lemma ChunkStoresCoherent(chunks: seq<Chunk>, n: nat)
    requires n <= |chunks|
    ensures Coherent(Range(Serial(ChunkTasks(chunks, n))))
  {
    forall x, y | x in Range(Serial(ChunkTasks(chunks, n))) && y in Range(Serial(ChunkTasks(chunks, n))) && x.addr == y.addr
      ensures x.value == y.value
    {
      SerialChunks(chunks, n, x);
      SerialChunks(chunks, n, y);
    }
  }

  lemma ReplayComputes(mem: seq<Word>, chunks: seq<Chunk>, n: nat)
    requires n <= |chunks| && n <= |mem|
    requires InBounds(Serial(ChunkTasks(chunks, n)), |mem|)
    ensures Computed(Replay(mem, Serial(ChunkTasks(chunks, n))), chunks, 0, n)
  {
    var log := Serial(ChunkTasks(chunks, n));
    ChunkStoresCoherent(chunks, n);
    forall i | 0 <= i < n
      ensures Replay(mem, log)[i] == Mix(chunks[i])
    {
      var x := ChunkStore(chunks, i);
      SerialChunks(chunks, n, x);
      ReplayAt(mem, log, i);
      assert x in log && x.addr == i;
    }
  }

  /** The exclusive or of the first `n` cells. */
  function XorCells(mem: seq<Word>, n: nat): (acc: Word)
    requires n <= |mem|
  {
    if n == 0 then 0 else Xor(XorCells(mem, n - 1), mem[n - 1])
  }

  lemma {:induction false} XorComputed(mem: seq<Word>, chunks: seq<Chunk>, n: nat)
    requires Computed(mem, chunks, 0, n)
    ensures XorCells(mem, n) == XorMix(chunks[..n])
  {
    if n > 0 {
      XorComputed(mem, chunks, n - 1);
      XorMixSlice(chunks, 0, n - 1);
      assert chunks[0..n] == chunks[..n] && chunks[0..n - 1] == chunks[..n - 1];
    }
  }

  /** The loop that reads the results back: `acc ^= chunks[i].out`. */
  method XorOutputs(pool: Pool<Word>, n: nat) returns (acc: Word)
    requires n <= |pool.mem|
    ensures acc == XorCells(pool.mem, n)
  {
    acc := 0;
    for i := 0 to n
      invariant acc == XorCells(pool.mem, i)
    {
      acc := Xor(acc, pool.mem[i]);
    }
  }

  // --- The three ways to run ----------------------------------------------------------

  /** `bench_mix(NULL, &chunks[i])` on the calling processor. */
  method RunChunk(pool: Pool<Word>, chunks: seq<Chunk>, i: nat, ghost w: Wave<Word>)
    requires pool.Valid() && i < |chunks| <= |pool.mem|
    modifies pool`mem, pool`log
    ensures pool.Valid() && pool.St() == Publish(old(pool.St()), ChunkStore(chunks, i))
    ensures old(Tracks(w, pool.St())) && ChunkStore(chunks, i) in w.scope ==> Tracks(w, pool.St())
  {
    var h := BenchMix(chunks[i]);
    pool.StoreHere(Store(i, h), w);
  }

  lemma ComputedStep(mem: seq<Word>, chunks: seq<Chunk>, n: nat)
    requires n < |chunks| <= |mem| && Computed(mem, chunks, 0, n)
    ensures Computed(mem[n := Mix(chunks[n])], chunks, 0, n + 1)
    ensures XorMix(chunks[..n + 1]) == Xor(XorMix(chunks[..n]), Mix(chunks[n]))
  {
    XorMixSlice(chunks, 0, n);
    assert chunks[0..n + 1] == chunks[..n + 1] && chunks[0..n] == chunks[..n];
  }

  /** The serial baseline. */
  method RunBsp(pool: Pool<Word>, chunks: seq<Chunk>) returns (acc: Word)
    requires pool.Valid() && |chunks| <= |pool.mem|
    modifies pool`mem, pool`log
    ensures pool.Valid() && |pool.mem| == |old(pool.mem)|
    ensures acc == XorMix(chunks) && Computed(pool.mem, chunks, 0, |chunks|)
  {
    acc := 0;
    var i := 0;
    while i < |chunks|
      invariant 0 <= i <= |chunks|
      invariant pool.Valid() && |pool.mem| == |old(pool.mem)|
      invariant acc == XorMix(chunks[..i]) && Computed(pool.mem, chunks, 0, i)
    {
      ComputedStep(pool.mem, chunks, i);
      RunChunk(pool, chunks, i, Wave(pool.St(), {}));
      acc := Xor(acc, pool.mem[i]);
      i := i + 1;
    }
    assert chunks[..|chunks|] == chunks;
  }

  /**
    The pooled run. From an idle pool, anything it returns but the sentinel is
    what the serial run returns on the same chunks; a run that did not stall
    leaves the pool idle.
   */
  method RunPool(pool: Pool<Word>, chunks: seq<Chunk>) returns (r: Word, ghost stalled: bool)
    requires pool.Valid() && |chunks| <= |pool.mem|
    modifies pool
    ensures pool.Valid() && |pool.mem| == |old(pool.mem)|
    ensures stalled ==> r == SENTINEL
    ensures old(Idle(pool.St())) && !stalled ==> r == XorMix(chunks) && Idle(pool.St())
    ensures old(Idle(pool.St())) && !stalled ==> Computed(pool.mem, chunks, 0, |chunks|)
  {
    ghost var idle, mem0 := Idle(pool.St()), pool.mem;
    var ok;
    ghost var submitted, done;
    ok, submitted, done := DriveWave(pool, ChunkTasks(chunks, |chunks|));
    if !ok {
      return SENTINEL, true;
    }
    stalled := false;
    r := XorOutputs(pool, |chunks|);
    if idle {
      PoolComputes(mem0, pool.mem, chunks);
    }
  }

  lemma PoolComputes(before: seq<Word>, after: seq<Word>, chunks: seq<Chunk>)
    requires |chunks| <= |before| == |after|
    requires Coherent(Range(Serial(ChunkTasks(chunks, |chunks|)))) ==>
               && InBounds(Serial(ChunkTasks(chunks, |chunks|)), |before|)
               && after == Replay(before, Serial(ChunkTasks(chunks, |chunks|)))
    ensures Computed(after, chunks, 0, |chunks|)
    ensures XorCells(after, |chunks|) == XorMix(chunks)
  {
    ChunkStoresCoherent(chunks, |chunks|);
    ReplayComputes(before, chunks, |chunks|);
    XorComputed(after, chunks, |chunks|);
    assert chunks[..|chunks|] == chunks;
  }

  // --- The BSP takes a share --------------------------------------------------------------

  /** How many of `n` chunks the APs get, in the machine's unsigned arithmetic. */
  function ApShare(n: nat, workers: nat): (end: nat)
  {
    var fraction := ((n * workers) % (SIZE_MAX + 1)) / (workers + 1);
    var atLeastOne := if fraction == 0 then 1 else fraction;
    if atLeastOne >= n then (if n == 0 then SIZE_MAX else n - 1) else atLeastOne
  }

  /** The split is a split exactly when there is at least one chunk, product overflow or not. */
  lemma ShareIsPrefix(n: nat, workers: nat)
    requires n < SIZE_MAX
    ensures ApShare(n, workers) <= n <==> n >= 1
    ensures n >= 2 ==> 1 <= ApShare(n, workers) < n
  {
  }

  /** The APs get workers / (workers + 1) of the chunks, rounded down, and at least one. */
  lemma ShareIsProportional(n: nat, workers: nat)
    requires n >= 2 && n * workers < 0x1_0000_0000_0000_0000
    ensures var share := ApShare(n, workers);
      if n * workers < workers + 1 then share == 1
      else share * (workers + 1) <= n * workers < share * (workers + 1) + workers + 1
  {
    var d, p := workers + 1, n * workers;
    assert n * d == p + n;
    QuotientBounds(p, d, n);
  }

  lemma QuotientBounds(p: nat, d: nat, n: nat)
    requires d > 0 && p < n * d
    ensures p / d * d <= p < p / d * d + d && p / d < n && (p >= d ==> p / d >= 1)
  {
    var q := p / d;
    assert p == q * d + p % d;
    assert (n - q) * d > 0;
    assert p >= d ==> (q + 1) * d > d;
  }

  /** The stores the BSP makes itself: chunks lo, lo + 1, ..., hi - 1. */
  function ShareStores(chunks: seq<Chunk>, lo: nat, hi: nat): (stores: seq<Store<Word>>)
    requires lo <= hi <= |chunks|
    ensures |stores| == hi - lo
    ensures forall k :: 0 <= k < hi - lo ==> stores[k] == ChunkStore(chunks, lo + k)
  {
    seq(hi - lo, k requires 0 <= k < hi - lo => ChunkStore(chunks, lo + k))
  }

  ghost function ShareWave(s: State<Word>, chunks: seq<Chunk>, end: nat): Wave<Word>
    requires end <= |chunks|
  {
    Wave(s, Range(Serial(ChunkTasks(chunks, end)) + ShareStores(chunks, end, |chunks|)))
  }

  lemma ShareScope(s: State<Word>, chunks: seq<Chunk>, end: nat, x: Store<Word>)
    requires end <= |chunks|
    ensures x in ShareWave(s, chunks, end).scope <==> exists i :: 0 <= i < |chunks| && x == ChunkStore(chunks, i)
  {
    SerialChunks(chunks, end, x);
    var share := ShareStores(chunks, end, |chunks|);
    if i :| 0 <= i < |chunks| && x == ChunkStore(chunks, i) {
      if i >= end {
        assert share[i - end] == x;
      }
    }
  }

  lemma ShareCoherent(s: State<Word>, chunks: seq<Chunk>, end: nat)
    requires end <= |chunks|
    ensures Coherent(ShareWave(s, chunks, end).scope)
    ensures forall k :: 0 <= k < end ==> InScope(ChunkTasks(chunks, end)[k], ShareWave(s, chunks, end).scope)
    ensures forall i :: 0 <= i < |chunks| ==> ChunkStore(chunks, i) in ShareWave(s, chunks, end).scope
  {
    var scope := ShareWave(s, chunks, end).scope;
    forall x, y | x in scope && y in scope && x.addr == y.addr
      ensures x.value == y.value
    {
      ShareScope(s, chunks, end, x);
      ShareScope(s, chunks, end, y);
    }
    forall i | 0 <= i < |chunks|
      ensures ChunkStore(chunks, i) in scope
    {
      ShareScope(s, chunks, end, ChunkStore(chunks, i));
    }
  }

  /** Hand chunks [0..end) to the APs, polling only while some are still refused. */
  method SubmitShare(pool: Pool<Word>, tasks: seq<Task<Word>>, ghost w: Wave<Word>)
    returns (ok: bool, done: nat, lastProgress: nat)
    requires Progress(pool, w, tasks, 0, 0) && !pool.singleCore
    requires TasksInBounds(tasks, |pool.mem|) && forall k :: 0 <= k < |tasks| ==> InScope(tasks[k], w.scope)
    modifies pool
    ensures ok ==> Progress(pool, w, tasks, |tasks|, done)
    ensures pool.Valid() && |pool.mem| == |old(pool.mem)|
    ensures ok ==> old(pool.clock) < lastProgress <= pool.clock <= lastProgress + WATCHDOG_STALL_US
    ensures ok ==> pool.lastCollect <= lastProgress
    ensures !ok ==> pool.clock > old(pool.clock) + WATCHDOG_STALL_US && pool.clock > pool.lastCollect + WATCHDOG_STALL_US
  {
    var submitted := 0;
    done := 0;
    lastProgress := pool.Now();
    while submitted < |tasks|
      invariant Progress(pool, w, tasks, submitted, done)
      invariant old(pool.clock) < lastProgress && OnWatch(pool, lastProgress)
      decreases |w.start.accepted| + |tasks| - done, |tasks| - submitted, lastProgress + WATCHDOG_STALL_US - pool.clock
    {
      submitted := SubmitBatch(pool, tasks, submitted, done, w);
      if submitted < |tasks| {
        var stalled;
        done, lastProgress, stalled := PollTurn(pool, tasks, submitted, done, lastProgress, w);
        CountedWithinAccepted(pool, w, tasks, submitted, done);
        if stalled {
          return false, done, lastProgress;
        }
      }
    }
    return true, done, lastProgress;
  }

  /** The batch of one turn: as many submits as are left, capped by the reported slots, up to the first refusal. */
  method SubmitBatch(pool: Pool<Word>, tasks: seq<Task<Word>>, start: nat, ghost done: nat, ghost w: Wave<Word>)
    returns (submitted: nat)
    requires Progress(pool, w, tasks, start, done) && !pool.singleCore
    requires TasksInBounds(tasks, |pool.mem|) && forall k :: 0 <= k < |tasks| ==> InScope(tasks[k], w.scope)
    modifies pool`slots, pool`mem, pool`nextId, pool`accepted, pool`finished, pool`collected, pool`log
    ensures Progress(pool, w, tasks, submitted, done) && start <= submitted
  {
    var free := ReportedAvailable(pool, w);
    var batch := |tasks| - start;
    if batch > free {
      batch := free;
    }
    submitted := FillSlots(pool, tasks, start, batch, done, w);
  }

  /** Polls never count more than was ever accepted. */
  lemma CountedWithinAccepted(pool: Pool<Word>, w: Wave<Word>, tasks: seq<Task<Word>>, submitted: nat, done: nat)
    requires Progress(pool, w, tasks, submitted, done)
    ensures done <= |w.start.accepted| + submitted
  {
    IdleIffAllCollected(pool.St());
  }

  /** The BSP has stored the results of chunks [lo..hi) since the wave began. */
  ghost predicate Shared(w: Wave<Word>, s: State<Word>, chunks: seq<Chunk>, lo: nat, hi: nat)
  {
    && Tracks(w, s) && hi <= |chunks|
    && forall k :: lo <= k < hi ==> ChunkStore(chunks, k) in Since(w, s)
  }

  lemma SharedStep(w: Wave<Word>, s: State<Word>, t: State<Word>, chunks: seq<Chunk>, lo: nat, i: nat)
    requires lo <= i < |chunks| && Shared(w, s, chunks, lo, i) && Tracks(w, t)
    requires s.log + [ChunkStore(chunks, i)] <= t.log
    ensures Shared(w, t, chunks, lo, i + 1)
  {
    assert Since(w, s) + [ChunkStore(chunks, i)] <= Since(w, t);
    forall k | lo <= k < i + 1
      ensures ChunkStore(chunks, k) in Since(w, t)
    {
      assert ChunkStore(chunks, k) in Since(w, s) + [ChunkStore(chunks, i)];
    }
  }

  /** One chunk of the BSP's share, with the APs running on before its result is read back. */
  method ShareStep(pool: Pool<Word>, chunks: seq<Chunk>, lo: nat, i: nat, ghost w: Wave<Word>) returns (h: Word)
    requires pool.Valid() && lo <= i < |chunks| <= |pool.mem|
    requires Coherent(w.scope) && ChunkStore(chunks, i) in w.scope
    modifies pool`slots, pool`mem, pool`finished, pool`log
    ensures pool.Valid() && |pool.mem| == |old(pool.mem)|
    ensures old(Shared(w, pool.St(), chunks, lo, i)) ==> Shared(w, pool.St(), chunks, lo, i + 1) && h == Mix(chunks[i])
  {
    ghost var before := pool.St();
    RunChunk(pool, chunks, i, w);
    pool.Interference(w);
    h := pool.mem[i];
    if Shared(w, before, chunks, lo, i) {
      SharedStep(w, before, pool.St(), chunks, lo, i);
      CellHolds(w, pool.St(), ChunkStore(chunks, i));
    }
  }

  lemma XorMixSlice(chunks: seq<Chunk>, lo: nat, i: nat)
    requires lo <= i < |chunks|
    ensures XorMix(chunks[lo..i + 1]) == Xor(XorMix(chunks[lo..i]), Mix(chunks[i]))
  {
    assert Mixes(chunks[lo..i + 1]) == Mixes(chunks[lo..i]) + [Mix(chunks[i])];
    XorAllNext(Mixes(chunks[lo..i]), Mix(chunks[i]));
  }

  /** The BSP computes its own chunks while the APs run theirs. */
  method ComputeShare(pool: Pool<Word>, chunks: seq<Chunk>, end: nat, ghost w: Wave<Word>)
    returns (acc: Word)
    requires pool.Valid() && end <= |chunks| <= |pool.mem| && Coherent(w.scope)
    requires forall i :: 0 <= i < |chunks| ==> ChunkStore(chunks, i) in w.scope
    modifies pool`slots, pool`mem, pool`finished, pool`log
    ensures pool.Valid() && |pool.mem| == |old(pool.mem)|
    ensures old(Tracks(w, pool.St())) ==> Shared(w, pool.St(), chunks, end, |chunks|) && acc == XorMix(chunks[end..])
  {
    acc := 0;
    var i := end;
    while i < |chunks|
      invariant end <= i <= |chunks|
      invariant pool.Valid() && |pool.mem| == |old(pool.mem)|
      invariant old(Tracks(w, pool.St())) ==> Shared(w, pool.St(), chunks, end, i) && acc == XorMix(chunks[end..i])
    {
      var h := ShareStep(pool, chunks, end, i, w);
      XorMixSlice(chunks, end, i);
      acc := Xor(acc, h);
      i := i + 1;
    }
    assert chunks[end..|chunks|] == chunks[end..];
  }

  /** Poll until every submitted chunk has been counted. */
  method DrainShare(pool: Pool<Word>, tasks: seq<Task<Word>>, counted: nat, progressAt: nat, ghost w: Wave<Word>)
    returns (ok: bool, ghost done: nat)
    requires Progress(pool, w, tasks, |tasks|, counted)
    requires pool.clock <= progressAt + WATCHDOG_STALL_US && pool.lastCollect <= progressAt <= pool.clock
    modifies pool`slots, pool`mem, pool`finished, pool`collected, pool`log, pool`lastCollect, pool`clock
    ensures Progress(pool, w, tasks, |tasks|, done) && old(pool.log) <= pool.log
    ensures ok ==> done >= |tasks|
    ensures !ok ==> pool.clock > progressAt + WATCHDOG_STALL_US && pool.clock > pool.lastCollect + WATCHDOG_STALL_US
  {
    var collected, lastProgress := counted, progressAt;
    while collected < |tasks|
      invariant Progress(pool, w, tasks, |tasks|, collected) && old(pool.log) <= pool.log
      invariant progressAt <= lastProgress && OnWatch(pool, lastProgress)
      decreases |tasks| - collected, lastProgress + WATCHDOG_STALL_US - pool.clock
    {
      var stalled;
      collected, lastProgress, stalled := PollTurn(pool, tasks, |tasks|, collected, lastProgress, w);
      if stalled {
        return false, collected;
      }
    }
    return true, collected;
  }

  /** Once the wave is over, every chunk's cell holds its result, whoever computed it. */
  lemma ShareCell(w: Wave<Word>, shared: State<Word>, s: State<Word>, chunks: seq<Chunk>, end: nat, i: nat)
    requires end <= |chunks| <= |s.mem| && w == ShareWave(w.start, chunks, end) && i < |chunks|
    requires Conserved(w.start) && Idle(w.start) && Conserved(s) && Idle(s) && Tracks(w, s)
    requires s.accepted == w.start.accepted + ChunkTasks(chunks, end)
    requires Shared(w, shared, chunks, end, |chunks|) && shared.log <= s.log
    ensures s.mem[i] == Mix(chunks[i])
  {
    ShareCoherent(w.start, chunks, end);
    WaveRunsEachOnce(w, s);
    var x := ChunkStore(chunks, i);
    if i < end {
      SerialChunks(chunks, end, x);
      WaveStoresAll(w, s, ChunkTasks(chunks, end), x);
    } else {
      assert x in Since(w, shared);
      assert Since(w, shared) <= Since(w, s);
    }
    CellHolds(w, s, x);
  }

  lemma SharesXor(mem: seq<Word>, chunks: seq<Chunk>, end: nat)
    requires end <= |chunks| <= |mem| && Computed(mem, chunks, 0, |chunks|)
    ensures Xor(XorCells(mem, end), XorMix(chunks[end..])) == XorMix(chunks)
  {
    XorComputed(mem, chunks, end);
    XorMixSplit(chunks[..end], chunks[end..]);
    assert chunks[..end] + chunks[end..] == chunks;
  }

  lemma ShareComputes(w: Wave<Word>, shared: State<Word>, s: State<Word>, chunks: seq<Chunk>, end: nat)
    requires end <= |chunks| <= |s.mem| && w == ShareWave(w.start, chunks, end)
    requires Conserved(w.start) && Idle(w.start) && Conserved(s) && Idle(s) && Tracks(w, s)
    requires s.accepted == w.start.accepted + ChunkTasks(chunks, end)
    requires Shared(w, shared, chunks, end, |chunks|) && shared.log <= s.log
    ensures Computed(s.mem, chunks, 0, |chunks|)
    ensures Xor(XorCells(s.mem, end), XorMix(chunks[end..])) == XorMix(chunks)
  {
    forall i | 0 <= i < |chunks|
      ensures s.mem[i] == Mix(chunks[i])
    {
      ShareCell(w, shared, s, chunks, end, i);
    }
    SharesXor(s.mem, chunks, end);
  }

  /** The state after the AP share has been submitted and drained, for the proof of RunBspPart. */
  method RunShares(pool: Pool<Word>, chunks: seq<Chunk>, end: nat, ghost w: Wave<Word>)
    returns (ok: bool, bspAcc: Word, ghost shared: State<Word>, ghost counted: nat)
    requires pool.Valid() && !pool.singleCore && end <= |chunks| <= |pool.mem|
    requires w == ShareWave(pool.St(), chunks, end)
    modifies pool
    ensures pool.Valid() && |pool.mem| == |old(pool.mem)|
    ensures !ok ==> pool.clock > pool.lastCollect + WATCHDOG_STALL_US
    ensures ok ==> counted >= end && Progress(pool, w, ChunkTasks(chunks, end), end, counted)
    ensures ok && Idle(w.start) ==>
              && Shared(w, shared, chunks, end, |chunks|) && shared.log <= pool.log
              && bspAcc == XorMix(chunks[end..])
  {
    var tasks := ChunkTasks(chunks, end);
    if Idle(w.start) {
      IdleTracks(w);
    }
    ShareCoherent(w.start, chunks, end);
    bspAcc := 0;
    counted := 0;
    shared := pool.St();
    var done, lastProgress;
    ok, done, lastProgress := SubmitShare(pool, tasks, w);
    if !ok {
      return;
    }
    bspAcc := ComputeShare(pool, chunks, end, w);
    shared := pool.St();
    ok, counted := DrainShare(pool, tasks, done, lastProgress, w);
  }

  /**
    The run in which the BSP takes a share. From an idle pool and for at least
    one chunk, anything it returns but the sentinel is the serial result, every
    chunk was computed, and a run that did not stall leaves the pool idle.
   */
  method RunBspPart(pool: Pool<Word>, chunks: seq<Chunk>) returns (r: Word, ghost stalled: bool)
    requires pool.Valid() && 1 <= |chunks| < SIZE_MAX && |chunks| <= |pool.mem|
    modifies pool
    ensures pool.Valid() && |pool.mem| == |old(pool.mem)|
    ensures stalled ==> r == SENTINEL && pool.clock > pool.lastCollect + WATCHDOG_STALL_US
    ensures old(Idle(pool.St())) && !stalled ==> r == XorMix(chunks) && Idle(pool.St())
    ensures old(Idle(pool.St())) && !stalled ==> Computed(pool.mem, chunks, 0, |chunks|)
  {
    if pool.singleCore {
      r := RunBsp(pool, chunks);
      return r, false;
    }
    var end := ApShare(|chunks|, pool.workerCount);
    ShareIsPrefix(|chunks|, pool.workerCount);
    ghost var w := ShareWave(pool.St(), chunks, end);
    var ok, bspAcc;
    ghost var shared, counted;
    ok, bspAcc, shared, counted := RunShares(pool, chunks, end, w);
    if !ok {
      return SENTINEL, true;
    }
    var apAcc := XorOutputs(pool, end);
    if Idle(w.start) {
      DoneWithinSubmitted(pool, w, ChunkTasks(chunks, end), end, counted);
      ShareComputes(w, shared, pool.St(), chunks, end);
    }
    return Xor(apAcc, bspAcc), false;
  }

  // --- Whole scenarios ----------------------------------------------------------------------

  method ClearOutputs(pool: Pool<Word>, n: nat)
    requires pool.Valid() && n <= |pool.mem|
    modifies pool`mem, pool`log
    ensures pool.Valid() && |pool.mem| == |old(pool.mem)|
  {
    for i := 0 to n
      invariant pool.Valid() && |pool.mem| == |old(pool.mem)|
    {
      pool.StoreHere(Store(i, 0), Wave(pool.St(), {}));
    }
  }

  /**
    The correctness gate over a whole sweep: run each chunk set serially, clear
    the outputs, run it through the pool, and stop the sweep at a stall. Started
    on an idle pool it never reports a mismatch.
   */
  method CorrectnessGate(pool: Pool<Word>, sweep: seq<seq<Chunk>>) returns (mismatch: bool, completed: nat)
    requires pool.Valid() && Idle(pool.St())
    requires forall k :: 0 <= k < |sweep| ==> |sweep[k]| <= |pool.mem|
    modifies pool
    ensures !mismatch && completed <= |sweep|
    ensures completed == |sweep| ==> Idle(pool.St())
  {
    mismatch, completed := false, 0;
    while completed < |sweep|
      invariant completed <= |sweep| && !mismatch
      invariant pool.Valid() && Idle(pool.St()) && |pool.mem| == |old(pool.mem)|
    {
      var bsp := RunBsp(pool, sweep[completed]);
      ClearOutputs(pool, |sweep[completed]|);
      var ap;
      ghost var stalled;
      ap, stalled := RunPool(pool, sweep[completed]);
      if ap == SENTINEL {
        break;
      }
      if bsp != ap {
        mismatch := true;
      }
      completed := completed + 1;
    }
  }

  /**
    The dispatch-latency loop: one task in flight at a time. Unless it stalls it
    hands back an idle pool; it stalls only after a minute without a completion.
   */
  method LatencyProbe(pool: Pool<Word>, t: Task<Word>, iterations: nat) returns (stalled: bool)
    requires pool.Valid() && InBounds(t.stores, |pool.mem|) && !pool.singleCore
    modifies pool
    ensures pool.Valid()
    ensures old(Idle(pool.St())) && !stalled ==> Idle(pool.St())
    ensures stalled ==> pool.clock > old(pool.clock) + WATCHDOG_STALL_US
  {
    stalled := false;
    ghost var w := Wave(pool.St(), {});
    var i := 0;
    IdleIffAllCollected(pool.St());
    while i < iterations && !stalled
      invariant pool.Valid() && |pool.mem| == |old(pool.mem)| && old(pool.clock) <= pool.clock
      invariant old(Idle(pool.St())) && !stalled ==> |pool.collected| == |pool.accepted|
      invariant stalled ==> pool.clock > old(pool.clock) + WATCHDOG_STALL_US
      decreases iterations - i
    {
      var ok := TrySubmit(pool, t, w);
      if ok {
        stalled := AwaitOne(pool, w);
      }
      i := i + 1;
    }
    IdleIffAllCollected(pool.St());
  }

  /** Spin on poll until it counts something or a minute passes. */
  method AwaitOne(pool: Pool<Word>, ghost w: Wave<Word>) returns (stalled: bool)
    requires pool.Valid()
    modifies pool`slots, pool`mem, pool`finished, pool`collected, pool`log, pool`lastCollect, pool`clock
    ensures pool.Valid() && |pool.mem| == |old(pool.mem)| && old(pool.clock) <= pool.clock
    ensures !stalled ==> |pool.collected| > |old(pool.collected)|
    ensures |pool.collected| <= |pool.accepted|
    ensures stalled ==> pool.clock > old(pool.clock) + WATCHDOG_STALL_US && |pool.collected| == |old(pool.collected)|
  {
    stalled := false;
    var watch := pool.Now();
    while true
      invariant pool.Valid() && |pool.mem| == |old(pool.mem)|
      invariant old(pool.clock) < watch <= pool.clock <= watch + WATCHDOG_STALL_US
      invariant |pool.collected| == |old(pool.collected)|
      decreases watch + WATCHDOG_STALL_US - pool.clock
    {
      var freed := pool.Poll(w);
      IdleIffAllCollected(pool.St());
      if freed != 0 {
        return;
      }
      var now := pool.Now();
      if now - watch > WATCHDOG_STALL_US {
        stalled := true;
        return;
      }
    }
  }
}
