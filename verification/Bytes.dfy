/**
  Bytes, unsigned fixed-width integers in little- and big-endian order, and
  bitwise exclusive or on naturals: the vocabulary every binary format of this
  repository is written in.
 */
module Bytes {

  type byte = x: int | 0 <= x < 256

  type bytes = seq<byte>

  function Pow256(n: nat): (p: nat)
    ensures p > 0
  {
    if n == 0 then 1 else 256 * Pow256(n - 1)
  }

  /** The number that `s` spells with its least significant byte first. */
  function FromLE(s: bytes): (v: nat)
  {
    if s == [] then 0 else s[0] + 256 * FromLE(s[1..])
  }

  /** The low `n` bytes of `v`, least significant first. */
  function ToLE(v: nat, n: nat): (s: bytes)
    ensures |s| == n
  {
    if n == 0 then [] else [v % 256] + ToLE(v / 256, n - 1)
  }

  /** The low `n` bytes of `v`, most significant first. */
  function ToBE(v: nat, n: nat): (s: bytes)
    ensures |s| == n
  {
    if n == 0 then [] else ToBE(v / 256, n - 1) + [v % 256]
  }

  lemma {:induction false} FromLEBound(s: bytes)
    ensures FromLE(s) < Pow256(|s|)
  {
    if s != [] {
      FromLEBound(s[1..]);
    }
  }

  lemma {:induction false} ZeroLoad(s: bytes)
    requires forall k :: 0 <= k < |s| ==> s[k] == 0
    ensures FromLE(s) == 0
  {
    if s != [] {
      ZeroLoad(s[1..]);
    }
  }

  /** A number that fits its field survives being stored and loaded. */
  lemma {:induction false} StoreThenLoad(v: nat, n: nat)
    requires v < Pow256(n)
    ensures FromLE(ToLE(v, n)) == v
  {
    if n > 0 {
      StoreThenLoad(v / 256, n - 1);
      assert ToLE(v, n)[1..] == ToLE(v / 256, n - 1);
    }
  }

  /** Loading a field and storing it again restores its bytes. */
  lemma {:induction false} LoadThenStore(s: bytes)
    ensures ToLE(FromLE(s), |s|) == s
  {
    if s != [] {
      LoadThenStore(s[1..]);
      assert s == [s[0]] + s[1..];
    }
  }

  /** A big-endian field determines the number stored in it. */
  lemma {:induction false} ToBEInjective(v: nat, w: nat, n: nat)
    requires v < Pow256(n) && w < Pow256(n)
    requires ToBE(v, n) == ToBE(w, n)
    ensures v == w
  {
    if n > 0 {
      var a, b := ToBE(v, n), ToBE(w, n);
      assert a[n - 1] == b[n - 1];
      assert ToBE(v / 256, n - 1) == a[..n - 1] == b[..n - 1] == ToBE(w / 256, n - 1);
      ToBEInjective(v / 256, w / 256, n - 1);
    }
  }

  /** Byte `i` of a big-endian field is what shifting right by 8 * (n - 1 - i) exposes. */
  lemma {:induction false} ToBEAt(v: nat, n: nat, i: nat)
    requires i < n
    ensures ToBE(v, n)[i] == (v / Pow256(n - 1 - i)) % 256
  {
    if i < n - 1 {
      ToBEAt(v / 256, n - 1, i);
      DivDiv(v, Pow256(n - 2 - i), Pow256(n - 1 - i));
    }
  }

  lemma DivDiv(v: nat, b: nat, p: nat)
    requires b > 0 && p == 256 * b
    ensures (v / 256) / b == v / p
  {
    var w := v / 256;
    var q, r := w / b, w % b;
    assert w == q * b + r;
    assert v == q * b * 256 + (r * 256 + v % 256);
    assert q * b * 256 == q * p;
    QuotientIsUnique(v, p, q, r * 256 + v % 256);
  }

  lemma QuotientIsUnique(v: nat, m: nat, q: nat, r: nat)
    requires r < m
    requires v == q * m + r
    ensures v / m == q
  {
    var d := v / m - q;
    assert v == (v / m) * m + v % m;
    assert d * m == r - v % m;
    assert d >= 1 ==> d * m >= m;
    assert d + 1 <= 0 ==> d * m + m <= 0;
  }

  // --- Fields inside a buffer ------------------------------------------------

  function Load(s: bytes, at: nat, width: nat): (v: nat)
    requires at + width <= |s|
  {
    FromLE(s[at..at + width])
  }

  lemma TwoBytes(d: bytes, at: nat, p: byte, q: byte)
    requires at + 2 <= |d| && d[at] == p && d[at + 1] == q
    ensures Load(d, at, 2) == p as nat + 0x100 * q as nat
  {
    var x := d[at..at + 2];
    assert x[1..] == [q] && [q][1..] == [];
    assert FromLE([q]) == q;
  }

  lemma FourBytes(d: bytes, at: nat)
    requires at + 4 <= |d|
    ensures Load(d, at, 4) == Load(d, at, 2) + 0x1_0000 * Load(d, at + 2, 2)
  {
    var x := d[at..at + 4];
    assert x[1..][1..] == d[at + 2..at + 4];
    assert FromLE(x) == x[0] as nat + 0x100 * (x[1] as nat + 0x100 * FromLE(d[at + 2..at + 4]));
    TwoBytes(d, at, d[at], d[at + 1]);
  }

  /** `x` lies at offset `pos` of `b`. */
  ghost predicate At(b: bytes, pos: nat, x: bytes)
  {
    pos + |x| <= |b| && b[pos..pos + |x|] == x
  }

  lemma LoadShift(b: bytes, pos: nat, h: bytes, off: nat, width: nat)
    requires At(b, pos, h) && off + width <= |h|
    ensures Load(b, pos + off, width) == Load(h, off, width)
  {
    SliceShift(b, pos, h, off, off + width);
  }

  lemma ByteShift(b: bytes, pos: nat, h: bytes, off: nat)
    requires At(b, pos, h) && off < |h|
    ensures b[pos + off] == h[off]
  {
    assert b[pos..pos + |h|][off] == b[pos + off];
  }

  lemma SliceShift(b: bytes, pos: nat, h: bytes, lo: nat, hi: nat)
    requires At(b, pos, h) && lo <= hi <= |h|
    ensures b[pos + lo..pos + hi] == h[lo..hi]
  {
    forall k | lo <= k < hi
      ensures b[pos + k] == h[k]
    {
      assert b[pos..pos + |h|][k] == b[pos + k];
    }
  }

  function Store(s: bytes, at: nat, patch: bytes): (t: bytes)
    requires at + |patch| <= |s|
    ensures |t| == |s|
    ensures forall k :: 0 <= k < |s| ==> t[k] == if at <= k < at + |patch| then patch[k - at] else s[k]
  {
    seq(|s|, k requires 0 <= k < |s| => if at <= k < at + |patch| then patch[k - at] else s[k])
  }

  /** A field reads the same in two buffers that agree on its bytes. */
  lemma LoadAgrees(s: bytes, t: bytes, at: nat, width: nat)
    requires at + width <= |s| == |t|
    requires forall k :: at <= k < at + width ==> s[k] == t[k]
    ensures Load(s, at, width) == Load(t, at, width)
  {
    assert s[at..at + width] == t[at..at + width];
  }

  lemma StoredRegion(s: bytes, at: nat, patch: bytes)
    requires at + |patch| <= |s|
    ensures Store(s, at, patch)[at..at + |patch|] == patch
  {
  }

  lemma OtherRegion(s: bytes, at: nat, patch: bytes, lo: nat, hi: nat)
    requires at + |patch| <= |s| && lo <= hi <= |s|
    requires hi <= at || at + |patch| <= lo
    ensures Store(s, at, patch)[lo..hi] == s[lo..hi]
  {
  }

  /** Storing what a region already holds changes nothing. */
  lemma StoreSame(s: bytes, at: nat, patch: bytes)
    requires at + |patch| <= |s|
    requires s[at..at + |patch|] == patch
    ensures Store(s, at, patch) == s
  {
    forall k | 0 <= k < |s|
      ensures Store(s, at, patch)[k] == s[k]
    {
      if at <= k < at + |patch| {
        assert s[at..at + |patch|][k - at] == s[k];
      }
    }
  }

  // --- Exclusive or ----------------------------------------------------------

  function Xor(a: nat, b: nat): (r: nat)
    decreases a + b
  {
    if a == 0 then b
    else if b == 0 then a
    else (a + b) % 2 + 2 * Xor(a / 2, b / 2)
  }

  lemma {:induction false} XorStep(a: nat, b: nat)
    ensures Xor(a, b) == (a + b) % 2 + 2 * Xor(a / 2, b / 2)
  {
  }

  lemma {:induction false} XorCommutes(a: nat, b: nat)
    ensures Xor(a, b) == Xor(b, a)
    decreases a + b
  {
    if a != 0 && b != 0 {
      XorCommutes(a / 2, b / 2);
    }
  }

  lemma {:induction false} XorUndo(a: nat, b: nat)
    ensures Xor(Xor(a, b), b) == a
    decreases a + b
  {
    if b == 0 {
    } else {
      if a + b > a / 2 + b / 2 {
        XorUndo(a / 2, b / 2);
      }
      XorStep(a, b);
      XorStep(Xor(a, b), b);
    }
  }

  function Pow2(n: nat): (p: nat)
    ensures p > 0
  {
    if n == 0 then 1 else 2 * Pow2(n - 1)
  }

  lemma {:induction false} Pow2Sum(m: nat, n: nat)
    ensures Pow2(m + n) == Pow2(m) * Pow2(n)
  {
    if m > 0 {
      Pow2Sum(m - 1, n);
      assert Pow2(m + n) == 2 * Pow2(m - 1 + n);
    }
  }

  lemma {:induction false} Pow256Sum(m: nat, n: nat)
    ensures Pow256(m + n) == Pow256(m) * Pow256(n)
  {
    if m > 0 {
      Pow256Sum(m - 1, n);
      assert Pow256(m + n) == 256 * Pow256(m - 1 + n);
    }
  }

  /** The widths of the machine words used by the formats. */
  lemma WordSizes()
    ensures Pow256(1) == 0x100 && Pow256(2) == 0x1_0000 && Pow256(3) == 0x100_0000
    ensures Pow256(4) == 0x1_0000_0000 && Pow256(8) == 0x1_0000_0000_0000_0000
    ensures Pow256(16) == Pow2(128) == 0x1_0000_0000_0000_0000_0000_0000_0000_0000
  {
    assert Pow256(4) == 0x1_0000_0000;
    Pow256Sum(4, 4);
    Pow256Sum(8, 8);
    assert Pow2(8) == 0x100;
    Pow2Sum(8, 8);
    Pow2Sum(16, 16);
    Pow2Sum(32, 32);
    Pow2Sum(64, 64);
  }

  /** Exclusive or never sets a bit above the wider operand. */
  lemma {:induction false} XorBound(a: nat, b: nat, n: nat)
    requires a < Pow2(n) && b < Pow2(n)
    ensures Xor(a, b) < Pow2(n)
  {
    if n > 0 {
      XorBound(a / 2, b / 2, n - 1);
      XorStep(a, b);
    }
  }
}
