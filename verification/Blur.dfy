/**
  The blur scenario of tools/axbench.c: a horizontal box blur cut into tiles of
  whole rows, run serially or through the pool.
 */
module Blur {
  import opened Bytes
  import opened Sequences
  import opened TaskPool
  import opened PoolObject
  import opened WaveDriver

  const IMG_W: nat := 512
  const RADIUS: nat := 4
  const WINDOW: nat := 2 * RADIUS + 1
  const U32: nat := 0x1_0000_0000

  datatype Tile = Tile(y0: nat, y1: nat)

  // --- The kernel -------------------------------------------------------------------

  /** Whether the window offset k - RADIUS around column `x` stays inside the row. */
  predicate InRow(x: nat, k: nat)
  {
    RADIUS <= x + k < IMG_W + RADIUS
  }

  function WindowSum(src: bytes, row: nat, x: nat, k: nat): (sum: nat)
    requires row + IMG_W <= |src|
  {
    if k == 0 then 0
    else WindowSum(src, row, x, k - 1) + if InRow(x, k - 1) then src[row + x + (k - 1) - RADIUS] else 0
  }

  function WindowCount(x: nat, k: nat): (count: nat)
    ensures count <= k
  {
    if k == 0 then 0 else WindowCount(x, k - 1) + if InRow(x, k - 1) then 1 else 0
  }

  lemma {:induction false} WindowBounds(src: bytes, row: nat, x: nat, k: nat)
    requires row + IMG_W <= |src| && x < IMG_W
    ensures WindowSum(src, row, x, k) <= 255 * WindowCount(x, k)
    ensures k > RADIUS ==> WindowCount(x, k) >= 1
  {
    if k > 0 {
      WindowBounds(src, row, x, k - 1);
      assert k == RADIUS + 1 ==> InRow(x, RADIUS);
    }
  }

  lemma MeanIsByte(sum: nat, count: nat)
    requires 1 <= count && sum <= 255 * count
    ensures 0 <= sum / count < 256
  {
    var q := sum / count;
    assert q * count <= sum;
    assert (256 - q) * count > 0;
  }

  /** The mean of the window: the divisor is never zero and the result is always a byte. */
  function Pixel(src: bytes, row: nat, x: nat): (p: byte)
    requires row + IMG_W <= |src| && x < IMG_W
  {
    WindowBounds(src, row, x, WINDOW);
    MeanIsByte(WindowSum(src, row, x, WINDOW), WindowCount(x, WINDOW));
    WindowSum(src, row, x, WINDOW) / WindowCount(x, WINDOW)
  }

  /** The blurred value of cell `a` of an image of `height` rows. */
  function Blurred(src: bytes, height: nat, a: nat): (p: byte)
    requires |src| == IMG_W * height && a < IMG_W * height
  {
    Pixel(src, a / IMG_W * IMG_W, a % IMG_W)
  }

  lemma BlurredAt(src: bytes, height: nat, y: nat, x: nat)
    requires |src| == IMG_W * height && y < height && x < IMG_W
    ensures Blurred(src, height, y * IMG_W + x) == Pixel(src, y * IMG_W, x)
  {
    var a := y * IMG_W + x;
    assert a / IMG_W == y && a % IMG_W == x;
  }

  // The window, without its loop.

  function Sum(s: bytes): nat
  {
    if s == [] then 0 else Sum(s[..|s| - 1]) + s[|s| - 1]
  }

  /** The first column of the window around `x`. */
  function Left(x: nat): nat
  {
    if x < 4 then 0 else x - 4
  }

  /** Where the first `k` offsets of the window end. */
  function Reach(x: nat, k: nat): nat
  {
    if x + k < 4 + Left(x) then Left(x) else if x + k < 4 + 512 then x + k - 4 else 512
  }

  lemma SumNext(src: bytes, lo: nat, hi: nat)
    requires lo <= hi < |src|
    ensures Sum(src[lo..hi + 1]) == Sum(src[lo..hi]) + src[hi]
  {
    assert src[lo..hi + 1][..hi - lo] == src[lo..hi];
  }

  lemma {:induction false} WindowReaches(src: bytes, row: nat, x: nat, k: nat)
    requires row + 512 <= |src| && x < 512 && k <= 9
    ensures Left(x) <= Reach(x, k) <= 512 && WindowCount(x, k) == Reach(x, k) - Left(x)
    ensures WindowSum(src, row, x, k) == Sum(src[row + Left(x)..row + Reach(x, k)])
  {
    if k > 0 {
      WindowReaches(src, row, x, k - 1);
      if Reach(x, k) > Reach(x, k - 1) {
        SumNext(src, row + Left(x), row + Reach(x, k - 1));
      }
    }
  }

  /** A blurred pixel is the mean of the columns from four to its left to four to its right, as far as the row goes. */
  lemma PixelIsMean(src: bytes, row: nat, x: nat)
    requires row + 512 <= |src| && x < 512
    ensures var lo, hi := if x < 4 then 0 else x - 4, if x < 507 then x + 5 else 512;
      lo < hi && Pixel(src, row, x) == Sum(src[row + lo..row + hi]) / (hi - lo)
  {
    WindowReaches(src, row, x, 9);
  }

  /** And so is every cell of a blurred image, in its own row. */
  lemma BlurredIsMean(src: bytes, height: nat, y: nat, x: nat)
    requires |src| == 512 * height && y < height && x < 512
    ensures var lo, hi, row := if x < 4 then 0 else x - 4, if x < 507 then x + 5 else 512, 512 * y;
      lo < hi && row + hi <= |src| && row + x < |src| && Blurred(src, height, row + x) == Sum(src[row + lo..row + hi]) / (hi - lo)
  {
    BlurredAt(src, height, y, x);
    PixelIsMean(src, 512 * y, x);
  }

  /** The inner loop of the kernel: what the window around one pixel adds up to. */
  method WindowTotals(src: bytes, row: nat, x: nat, width: nat) returns (sum: nat, count: nat)
    requires row + IMG_W <= |src| && x < IMG_W
    ensures sum == WindowSum(src, row, x, width) && count == WindowCount(x, width)
  {
    sum, count := 0, 0;
    for k := 0 to width
      invariant sum == WindowSum(src, row, x, k) && count == WindowCount(x, k)
    {
      if InRow(x, k) {
        sum := sum + src[row + x + k - RADIUS];
        count := count + 1;
      }
    }
  }

  method BlurPixel(src: bytes, row: nat, x: nat) returns (p: byte)
    requires row + IMG_W <= |src| && x < IMG_W
    ensures p == Pixel(src, row, x)
  {
    var sum, count := WindowTotals(src, row, x, WINDOW);
    WindowBounds(src, row, x, WINDOW);
    MeanIsByte(sum, count);
    return sum / count;
  }

  /** The middle loop: one row in place. */
  method BlurRow(src: bytes, dst: array<byte>, height: nat, y: nat)
    requires |src| == IMG_W * height == dst.Length && y < height
    modifies dst
    ensures forall a :: 0 <= a < dst.Length ==>
              dst[a] == if IMG_W * y <= a < IMG_W * (y + 1) then Blurred(src, height, a) else old(dst[a])
  {
    var row := y * IMG_W;
    for x := 0 to IMG_W
      invariant forall a :: 0 <= a < dst.Length ==>
        dst[a] == if row <= a < row + x then Blurred(src, height, a) else old(dst[a])
    {
      BlurredAt(src, height, y, x);
      var p := BlurPixel(src, row, x);
      dst[row + x] := p;
    }
  }

  /** `blur_tile`: the rows of one tile in place. */
  method BlurTile(src: bytes, dst: array<byte>, height: nat, t: Tile)
    requires |src| == IMG_W * height == dst.Length && t.y0 <= t.y1 <= height
    modifies dst
    ensures forall a :: 0 <= a < dst.Length ==>
              dst[a] == if IMG_W * t.y0 <= a < IMG_W * t.y1 then Blurred(src, height, a) else old(dst[a])
  {
    for y := t.y0 to t.y1
      invariant forall a :: 0 <= a < dst.Length ==>
        dst[a] == if IMG_W * t.y0 <= a < IMG_W * y then Blurred(src, height, a) else old(dst[a])
    {
      BlurRow(src, dst, height, y);
    }
  }

  // --- Tiles -------------------------------------------------------------------------

  /** The tiles of rows y, y + 1, ..., height - 1. */
  function TilesFrom(y: nat, height: nat, tileH: nat): (tiles: seq<Tile>)
    requires tileH >= 1
    decreases height - y
  {
    if y >= height then []
    else [Tile(y, if y + tileH <= height then y + tileH else height)] + TilesFrom(y + tileH, height, tileH)
  }

  /** `blur_build_tiles`, in its unsigned 32-bit arithmetic; the tile array holds `height` entries. */
  method BuildTiles(height: nat, tileH: nat) returns (tiles: seq<Tile>)
    requires 1 <= tileH < U32 && height <= U32 / 2
    ensures tiles == TilesFrom(0, height, tileH) && |tiles| <= height
    ensures TilesInside(tiles, height) && Covers(tiles, height)
  {
    BuiltTilesCover(height, tileH);
    tiles := [];
    var y := 0;
    while y < height
      invariant tiles + TilesFrom(y, height, tileH) == TilesFrom(0, height, tileH)
      invariant 0 <= y < U32 && |tiles| <= y && |tiles| <= height
      invariant y > 0 ==> tileH <= y
      decreases height - y
    {
      NoWrap(y, tileH);
      var next := (y + tileH) % U32;
      tiles := tiles + [Tile(y, if next <= height then next else height)];
      y := next;
    }
  }

  lemma NoWrap(y: nat, tileH: nat)
    requires tileH < U32 && y < U32 / 2 && (y > 0 ==> tileH <= y)
    ensures (y + tileH) % U32 == y + tileH < U32
  {
  }

  ghost predicate RowIn(tiles: seq<Tile>, i: int, row: nat)
  {
    0 <= i < |tiles| && tiles[i].y0 <= row < tiles[i].y1
  }

  ghost predicate RowCovered(tiles: seq<Tile>, row: nat)
  {
    exists i :: RowIn(tiles, i, row)
  }

  /** Every row is in some tile; TilesOrdered adds that it is in no other. */
  lemma {:induction false} TilesPartition(y: nat, height: nat, tileH: nat, row: nat)
    requires tileH >= 1 && y <= row < height
    ensures RowCovered(TilesFrom(y, height, tileH), row)
    decreases height - y
  {
    var tiles := TilesFrom(y, height, tileH);
    if row < tiles[0].y1 {
      assert RowIn(tiles, 0, row);
    } else {
      var rest := TilesFrom(y + tileH, height, tileH);
      TilesPartition(y + tileH, height, tileH, row);
      var i :| RowIn(rest, i, row);
      assert RowIn(tiles, i + 1, row);
    }
  }

  lemma {:induction false} TilesOrdered(y: nat, height: nat, tileH: nat)
    requires tileH >= 1
    ensures forall i :: 0 <= i < |TilesFrom(y, height, tileH)| ==>
              y <= TilesFrom(y, height, tileH)[i].y0 < TilesFrom(y, height, tileH)[i].y1 <= height
    ensures forall i, j :: 0 <= i < j < |TilesFrom(y, height, tileH)| ==>
              TilesFrom(y, height, tileH)[i].y1 <= TilesFrom(y, height, tileH)[j].y0
    decreases height - y
  {
    if y < height {
      TilesOrdered(y + tileH, height, tileH);
    }
  }

  /** Tile number `i` has `tileH` rows, the last one what is left. */
  lemma {:induction false} TilesAre(y: nat, height: nat, tileH: nat, i: nat)
    requires tileH >= 1 && i < |TilesFrom(y, height, tileH)|
    ensures var t, top := TilesFrom(y, height, tileH)[i], y + i * tileH;
      t.y0 == top < height && t.y1 == if top + tileH < height then top + tileH else height
    decreases height - y
  {
    if i > 0 {
      TilesAre(y + tileH, height, tileH, i - 1);
      assert y + tileH + (i - 1) * tileH == y + i * tileH;
    }
  }

  // --- Running the tiles -----------------------------------------------------------------

  function CellStore(src: bytes, height: nat, a: nat): (x: Store<byte>)
    requires |src| == IMG_W * height && a < IMG_W * height
  {
    Store(a, Blurred(src, height, a))
  }

  /** One store per pixel, so that tiles running at once interleave pixel by pixel. */
  function TileTask(src: bytes, height: nat, i: nat, t: Tile): (task: Task<byte>)
    requires |src| == IMG_W * height && t.y0 <= t.y1 <= height
    ensures forall k :: 0 <= k < |task.stores| ==> task.stores[k].addr < IMG_W * height
    ensures forall k :: 0 <= k < |task.stores| ==> task.stores[k] == CellStore(src, height, task.stores[k].addr)
    ensures forall a :: IMG_W * t.y0 <= a < IMG_W * t.y1 ==> CellStore(src, height, a) in task.stores
  {
    var stores := seq(IMG_W * t.y1 - IMG_W * t.y0, k requires 0 <= k < IMG_W * t.y1 - IMG_W * t.y0 =>
      CellStore(src, height, IMG_W * t.y0 + k));
    assert forall a :: IMG_W * t.y0 <= a < IMG_W * t.y1 ==> stores[a - IMG_W * t.y0] == CellStore(src, height, a);
    Task(i, stores)
  }

  ghost predicate TilesInside(tiles: seq<Tile>, height: nat)
  {
    forall i :: 0 <= i < |tiles| ==> tiles[i].y0 <= tiles[i].y1 <= height
  }

  ghost predicate Covers(tiles: seq<Tile>, height: nat)
  {
    forall row :: 0 <= row < height ==> RowCovered(tiles, row)
  }

  lemma BuiltTilesCover(height: nat, tileH: nat)
    requires tileH >= 1
    ensures TilesInside(TilesFrom(0, height, tileH), height) && Covers(TilesFrom(0, height, tileH), height)
  {
    TilesOrdered(0, height, tileH);
    forall row | 0 <= row < height
      ensures RowCovered(TilesFrom(0, height, tileH), row)
    {
      TilesPartition(0, height, tileH, row);
    }
  }

  function TileTasks(src: bytes, height: nat, tiles: seq<Tile>): (tasks: seq<Task<byte>>)
    requires |src| == IMG_W * height && TilesInside(tiles, height)
    ensures |tasks| == |tiles|
    ensures forall i :: 0 <= i < |tiles| ==> tasks[i] == TileTask(src, height, i, tiles[i])
  {
    seq(|tiles|, i requires 0 <= i < |tiles| => TileTask(src, height, i, tiles[i]))
  }

  ghost predicate Image(mem: seq<byte>, src: bytes, height: nat)
  {
    && |src| == IMG_W * height && IMG_W * height <= |mem|
    && forall a :: 0 <= a < IMG_W * height ==> mem[a] == Blurred(src, height, a)
  }

  /** Tiles store nothing but pixels of the image. */
  lemma TilesStoreOnlyPixels(src: bytes, height: nat, tiles: seq<Tile>, x: Store<byte>)
    requires |src| == IMG_W * height && TilesInside(tiles, height)
    requires x in Serial(TileTasks(src, height, tiles))
    ensures x.addr < IMG_W * height && x == CellStore(src, height, x.addr)
  {
    var tasks := TileTasks(src, height, tiles);
    SerialMembers(tasks, x);
    var i :| 0 <= i < |tasks| && x in tasks[i].stores;
    var k :| 0 <= k < |tasks[i].stores| && tasks[i].stores[k] == x;
  }

  /** Tiles that cover the rows store every pixel of the image. */
  lemma TilesStoreEveryPixel(src: bytes, height: nat, tiles: seq<Tile>, a: nat)
    requires |src| == IMG_W * height && TilesInside(tiles, height) && Covers(tiles, height) && a < IMG_W * height
    ensures CellStore(src, height, a) in Serial(TileTasks(src, height, tiles))
  {
    assert RowCovered(tiles, a / IMG_W);
    var i :| RowIn(tiles, i, a / IMG_W);
    var tasks := TileTasks(src, height, tiles);
    assert CellStore(src, height, a) in TileTask(src, height, i, tiles[i]).stores;
    SerialMembers(tasks, CellStore(src, height, a));
    assert CellStore(src, height, a) in tasks[i].stores;
  }

  /** Whatever the order and interleaving of their stores, the tiles leave the same image. */
  lemma AnyOrderGivesTheImage(src: bytes, height: nat, tiles: seq<Tile>, mem: seq<byte>, log: seq<Store<byte>>)
    requires |src| == IMG_W * height && TilesInside(tiles, height) && Covers(tiles, height)
    requires IMG_W * height <= |mem| && InBounds(log, |mem|)
    requires Range(log) == Range(Serial(TileTasks(src, height, tiles)))
    ensures Coherent(Range(log))
    ensures Image(Replay(mem, log), src, height)
    ensures forall a :: IMG_W * height <= a < |mem| ==> Replay(mem, log)[a] == mem[a]
  {
    var serial := Serial(TileTasks(src, height, tiles));
    forall x | x in Range(log)
      ensures x.addr < IMG_W * height && x == CellStore(src, height, x.addr)
    {
      assert x in Range(serial);
      TilesStoreOnlyPixels(src, height, tiles, x);
    }
    forall a | 0 <= a < |mem|
      ensures Replay(mem, log)[a] == if a < IMG_W * height then Blurred(src, height, a) else mem[a]
    {
      ReplayAt(mem, log, a);
      if a < IMG_W * height {
        TilesStoreEveryPixel(src, height, tiles, a);
        assert CellStore(src, height, a) in Range(serial);
      } else {
        assert forall x :: x in log ==> x in Range(log);
      }
    }
  }

  function Total(mem: seq<byte>, n: nat): (sum: nat)
    requires n <= |mem|
    ensures sum <= 255 * n
  {
    if n == 0 then 0 else Total(mem, n - 1) + mem[n - 1]
  }

  lemma {:induction false} TotalOfImage(mem: seq<byte>, other: seq<byte>, n: nat)
    requires n <= |mem| && n <= |other| && forall a :: 0 <= a < n ==> mem[a] == other[a]
    ensures Total(mem, n) == Total(other, n)
  {
    if n > 0 {
      TotalOfImage(mem, other, n - 1);
    }
  }

  lemma {:induction false} TotalIsSum(mem: seq<byte>, n: nat)
    requires n <= |mem|
    ensures Total(mem, n) == Sum(mem[..n])
  {
    if n > 0 {
      TotalIsSum(mem, n - 1);
      assert mem[..n][..n - 1] == mem[..n - 1];
    }
  }

  const U64: nat := 0x1_0000_0000_0000_0000
  const SENTINEL: nat := U64 - 1

  /** The sum of an image of any size the program makes does not wrap, and is never the sentinel. */
  lemma SumFits(mem: seq<byte>, height: nat)
    requires height <= U32 && IMG_W * height <= |mem|
    ensures Total(mem, IMG_W * height) < SENTINEL && Total(mem, IMG_W * height) % U64 == Total(mem, IMG_W * height)
  {
  }

  lemma NextSum(total: nat, x: nat)
    ensures (total % U64 + x) % U64 == (total + x) % U64
  {
  }

  /** The loop over the image, in the machine's 64-bit arithmetic. */
  method SumBytes(mem: seq<byte>, n: nat) returns (acc: nat)
    requires n <= |mem|
    ensures acc == Total(mem, n) % U64
  {
    acc := 0;
    for a := 0 to n
      invariant acc == Total(mem, a) % U64
    {
      NextSum(Total(mem, a), mem[a]);
      acc := (acc + mem[a]) % U64;
    }
  }

  /** `blur_run_bsp`: every tile in turn, then the sum of the image. */
  method RunBsp(src: bytes, dst: array<byte>, height: nat, tiles: seq<Tile>) returns (acc: nat)
    requires |src| == IMG_W * height == dst.Length && TilesInside(tiles, height) && Covers(tiles, height)
    modifies dst
    ensures Image(dst[..], src, height) && acc == Total(dst[..], dst.Length) % U64
  {
    for i := 0 to |tiles|
      invariant forall a, k :: 0 <= a < dst.Length && 0 <= k < i && IMG_W * tiles[k].y0 <= a < IMG_W * tiles[k].y1 ==>
        dst[a] == Blurred(src, height, a)
    {
      BlurTile(src, dst, height, tiles[i]);
    }
    forall a | 0 <= a < dst.Length
      ensures dst[a] == Blurred(src, height, a)
    {
      assert RowCovered(tiles, a / IMG_W);
      var k :| RowIn(tiles, k, a / IMG_W);
      assert IMG_W * tiles[k].y0 <= a < IMG_W * tiles[k].y1;
    }
    acc := SumBytes(dst[..], dst.Length);
  }

  /**
    `blur_run_pool`: from an idle pool a run that does not stall leaves the same
    image as the serial run, and the pool idle; it returns the sentinel if and
    only if it stalled.
   */
  method RunPool(pool: Pool<byte>, src: bytes, height: nat, tiles: seq<Tile>) returns (acc: nat, ghost stalled: bool)
    requires pool.Valid() && |src| == IMG_W * height <= |pool.mem| && TilesInside(tiles, height) && Covers(tiles, height)
    modifies pool
    ensures pool.Valid()
    ensures old(Idle(pool.St())) && !stalled ==> Image(pool.mem, src, height) && Idle(pool.St())
    ensures stalled ==> acc == SENTINEL
    ensures !stalled ==> |src| <= |pool.mem| && acc == Total(pool.mem, |src|) % U64
    ensures height <= U32 ==> (stalled <==> acc == SENTINEL)
  {
    ghost var idle, mem0 := Idle(pool.St()), pool.mem;
    var tasks := TileTasks(src, height, tiles);
    var ok;
    ghost var submitted, done;
    ok, submitted, done := DriveWave(pool, tasks);
    if !ok {
      return SENTINEL, true;
    }
    if idle {
      SerialInBounds(tasks, |mem0|);
      AnyOrderGivesTheImage(src, height, tiles, mem0, Serial(tasks));
    }
    stalled := false;
    acc := SumBytes(pool.mem, |src|);
    if height <= U32 {
      SumFits(pool.mem, height);
    }
  }

  /** Two complete images are equal and have equal sums: pooled and serial runs agree. */
  lemma RunsAgree(pooled: seq<byte>, serial: seq<byte>, src: bytes, height: nat)
    requires Image(pooled, src, height) && Image(serial, src, height)
    ensures pooled[..IMG_W * height] == serial[..IMG_W * height]
    ensures Total(pooled, IMG_W * height) == Total(serial, IMG_W * height)
  {
    TotalOfImage(pooled, serial, IMG_W * height);
  }
}
