/**
  The build identity that scripts/pe-set-debug.c computes: 128-bit FNV-1a over
  the whole image with the 16-byte CodeView GUID field read as zeros.
 */
module BuildId {
  import opened Bytes

  const GUID_LEN: nat := 16
  const MODULUS: nat := 0x1_0000_0000_0000_0000_0000_0000_0000_0000
  const BASIS: nat := 0x6c62_272e_07bb_0142_62b8_2175_6295_c58d
  const PRIME: nat := 0x0000_0000_0100_0000_0000_0000_0000_013b

  /** The multiplicative inverse of PRIME modulo 2^128; it exists because PRIME is odd. */
  const INVERSE: nat := 0xb104_1ad2_562f_f2ff_2ff2_ff2f_f2ff_2ff3

  /** PRIME * INVERSE == 1 + CARRY * MODULUS. */
  const CARRY: nat := 0x00b1_041a_d256_2ff2_ff2f_f3d9

  type hash = h: int | 0 <= h < MODULUS

  function XorIn(h: hash, b: byte): (r: hash)
    ensures Xor(r, b) == h
  {
    WordSizes();
    XorBound(h, b, 128);
    XorUndo(h, b);
    Xor(h, b)
  }

  function MulPrime(h: hash): (r: hash)
  {
    (h * PRIME) % MODULUS
  }

  function Step(h: hash, b: byte): (r: hash)
  {
    MulPrime(XorIn(h, b))
  }

  /** What the hash sees at offset `i`: the GUID field counts as zeros. */
  function Visible(data: bytes, guidOff: nat, i: nat): (b: byte)
    requires i < |data|
  {
    if guidOff <= i < guidOff + GUID_LEN then 0 else data[i]
  }

  /** The running hash after the first `n` bytes. */
  function Digest(data: bytes, guidOff: nat, n: nat): (h: hash)
    requires n <= |data|
  {
    if n == 0 then BASIS else Step(Digest(data, guidOff, n - 1), Visible(data, guidOff, n - 1))
  }

  function Id(data: bytes, guidOff: nat): (id: bytes)
    ensures |id| == GUID_LEN
  {
    ToBE(Digest(data, guidOff, |data|), GUID_LEN)
  }

  /** The shift that unpacks each output byte. */
  method Unpack(h: hash) returns (out: bytes)
    ensures out == ToBE(h, GUID_LEN)
  {
    out := [];
    for k := 0 to GUID_LEN
      invariant out == ToBE(h, GUID_LEN)[..k]
    {
      ToBEAt(h, GUID_LEN, k);
      out := out + [(h / Pow256(15 - k)) % 256];
    }
  }

  /** `build_id`. */
  method ComputeId(data: array<byte>, guidOff: nat) returns (out: bytes)
    ensures out == Id(data[..], guidOff)
  {
    var h: hash := BASIS;
    var i := 0;
    while i < data.Length
      invariant 0 <= i <= data.Length
      invariant h == Digest(data[..], guidOff, i)
    {
      var b := data[i];
      if i >= guidOff && i < guidOff + GUID_LEN {
        b := 0;
      }
      h := MulPrime(XorIn(h, b));
      i := i + 1;
    }
    out := Unpack(h);
    assert data[..data.Length] == data[..];
  }

  lemma XorBit(a: nat, x: nat, b: nat, y: nat)
    requires x < 2 && y < 2
    ensures Xor(2 * a + x, 2 * b + y) == (x + y) % 2 + 2 * Xor(a, b)
  {
    Halves(a, x);
    Halves(b, y);
    Parity(a + b, x + y);
    XorStep(2 * a + x, 2 * b + y);
  }

  lemma Halves(a: nat, x: nat)
    requires x < 2
    ensures (2 * a + x) / 2 == a
  {
  }

  lemma Parity(a: nat, x: nat)
    ensures (2 * a + x) % 2 == x % 2
  {
  }

  lemma BasisWithA()
    ensures Xor(BASIS, 0x61) == 0x6c62_272e_07bb_0142_62b8_2175_6295_c5ec
  {
    XorBit(0x00d8_c44e_5c0f_7602_84c5_7042_eac5_2b8b, 0, 0, 1);
    XorBit(0x01b1_889c_b81e_ec05_098a_e085_d58a_5716, 0, 1, 1);
    XorBit(0x0363_1139_703d_d80a_1315_c10b_ab14_ae2c, 0, 3, 0);
    XorBit(0x06c6_2272_e07b_b014_262b_8217_5629_5c58, 1, 6, 0);
    XorBit(0x0d8c_44e5_c0f7_6028_4c57_042e_ac52_b8b1, 1, 12, 0);
    XorBit(0x1b18_89cb_81ee_c050_98ae_085d_58a5_7163, 0, 24, 0);
    XorBit(0x3631_1397_03dd_80a1_315c_10ba_b14a_e2c6, 1, 48, 1);
  }

  lemma TimesPrime()
    ensures MulPrime(0x6c62_272e_07bb_0142_62b8_2175_6295_c5ec) == 0xd228_cb69_6f1a_8caf_7891_2b70_4e4a_8964
  {
  }

  /** A known answer of 128-bit FNV-1a: "a" gives d228cb69 6f1a8caf 78912b70 4e4a8964, nothing at all the basis. */
  lemma KnownDigests(data: bytes, guidOff: nat)
    requires data == [0x61] && guidOff > 0
    ensures Digest(data, guidOff, 0) == 0x6c62_272e_07bb_0142_62b8_2175_6295_c58d
    ensures Digest(data, guidOff, 1) == 0xd228_cb69_6f1a_8caf_7891_2b70_4e4a_8964
  {
    BasisWithA();
    TimesPrime();
    FirstStep(data, guidOff, BASIS);
  }

  lemma FirstStep(data: bytes, guidOff: nat, h: hash)
    requires data != [] && guidOff > 0 && Digest(data, guidOff, 0) == h
    ensures Digest(data, guidOff, 1) == MulPrime(XorIn(h, data[0]))
  {
  }

  // --- Each step is injective ------------------------------------------------

  /** A number smaller than the modulus whose product with a unit is a multiple of the modulus is zero. */
  lemma UnitCancels(d: int, p: int, inverse: int, carry: int, m: int, e: int)
    requires m > 0 && -m < d < m
    requires p * inverse == 1 + carry * m
    requires d * p == e * m
    ensures d == 0
  {
    assert d * (p * inverse) == (d * p) * inverse;
    assert d * (1 + carry * m) == d + (d * carry) * m;
    assert (e * m) * inverse == (e * inverse) * m;
    var t := e * inverse - d * carry;
    assert d == t * m;
    assert t >= 1 ==> t * m >= m;
    assert t + 1 <= 0 ==> t * m + m <= 0;
  }

  /** Multiplying by the prime loses nothing. */
  lemma MulPrimeInjective(h: hash, k: hash)
    requires MulPrime(h) == MulPrime(k)
    ensures h == k
  {
    var q, r := (h * PRIME) / MODULUS, (k * PRIME) / MODULUS;
    assert h * PRIME == q * MODULUS + MulPrime(h);
    assert k * PRIME == r * MODULUS + MulPrime(k);
    assert (h - k) * PRIME == (q - r) * MODULUS;
    UnitCancels(h - k, PRIME, INVERSE, CARRY, MODULUS, q - r);
  }

  lemma StepKeepsStatesApart(h: hash, k: hash, b: byte)
    requires h != k
    ensures Step(h, b) != Step(k, b)
  {
    if Step(h, b) == Step(k, b) {
      MulPrimeInjective(XorIn(h, b), XorIn(k, b));
    }
  }

  lemma StepKeepsBytesApart(h: hash, b: byte, c: byte)
    requires b != c
    ensures Step(h, b) != Step(h, c)
  {
    XorCommutes(h, b);
    XorCommutes(h, c);
    XorUndo(b, h);
    XorUndo(c, h);
    if Step(h, b) == Step(h, c) {
      MulPrimeInjective(XorIn(h, b), XorIn(h, c));
    }
  }

  // --- The two promises of the identity ---------------------------------------

  ghost predicate AgreeOutsideGuid(d: bytes, e: bytes, guidOff: nat)
  {
    |d| == |e| &&
    forall i :: 0 <= i < |d| && !(guidOff <= i < guidOff + GUID_LEN) ==> d[i] == e[i]
  }

  lemma {:induction false} DigestIgnoresGuid(d: bytes, e: bytes, guidOff: nat, n: nat)
    requires AgreeOutsideGuid(d, e, guidOff) && n <= |d|
    ensures Digest(d, guidOff, n) == Digest(e, guidOff, n)
  {
    if n > 0 {
      DigestIgnoresGuid(d, e, guidOff, n - 1);
    }
  }

  /** The id never depends on what the GUID field holds. */
  lemma IdIgnoresGuid(d: bytes, e: bytes, guidOff: nat)
    requires AgreeOutsideGuid(d, e, guidOff)
    ensures Id(d, guidOff) == Id(e, guidOff)
  {
    DigestIgnoresGuid(d, e, guidOff, |d|);
  }

  /** `d` and `e` differ at `at`, which the hash sees, and at no other byte the hash sees. */
  ghost predicate OneByteEdit(d: bytes, e: bytes, guidOff: nat, at: nat)
  {
    && |d| == |e| && at < |d|
    && !(guidOff <= at < guidOff + GUID_LEN)
    && d[at] != e[at]
    && forall i :: 0 <= i < |d| && i != at && !(guidOff <= i < guidOff + GUID_LEN) ==> d[i] == e[i]
  }

  lemma {:induction false} DigestSeparates(d: bytes, e: bytes, guidOff: nat, at: nat, n: nat)
    requires OneByteEdit(d, e, guidOff, at) && n <= |d|
    ensures n <= at ==> Digest(d, guidOff, n) == Digest(e, guidOff, n)
    ensures n > at ==> Digest(d, guidOff, n) != Digest(e, guidOff, n)
  {
    if n > 0 {
      DigestSeparates(d, e, guidOff, at, n - 1);
      if n - 1 == at {
        StepKeepsBytesApart(Digest(d, guidOff, at), d[at], e[at]);
      } else if n - 1 > at {
        StepKeepsStatesApart(Digest(d, guidOff, n - 1), Digest(e, guidOff, n - 1), Visible(d, guidOff, n - 1));
      }
    }
  }

  /** A change to any single byte outside the GUID field changes the id. */
  lemma IdSeparatesOneByteEdits(d: bytes, e: bytes, guidOff: nat, at: nat)
    requires OneByteEdit(d, e, guidOff, at)
    ensures Id(d, guidOff) != Id(e, guidOff)
  {
    DigestSeparates(d, e, guidOff, at, |d|);
    WordSizes();
    if Id(d, guidOff) == Id(e, guidOff) {
      ToBEInjective(Digest(d, guidOff, |d|), Digest(e, guidOff, |d|), GUID_LEN);
    }
  }
}
