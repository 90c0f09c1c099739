/** Numbers in a fixed count of hexadecimal digits. */
module HexText {
  function Power16(n: nat): nat
  {
    if n == 0 then 1 else 16 * Power16(n - 1)
  }

  /** `v` in `n` digits, each taken from `digits`. */
  function Hex(digits: string, v: nat, n: nat): (s: string)
    requires |digits| == 16
    ensures |s| == n
  {
    if n == 0 then "" else Hex(digits, v / 16, n - 1) + [digits[v % 16]]
  }

  ghost predicate Distinct(digits: string)
  {
    |digits| == 16 && forall i, j :: 0 <= i < j < 16 ==> digits[i] != digits[j]
  }

  lemma {:induction false} HexInjective(digits: string, v: nat, w: nat, n: nat)
    requires Distinct(digits) && v < Power16(n) && w < Power16(n) && Hex(digits, v, n) == Hex(digits, w, n)
    ensures v == w
  {
    if n > 0 {
      var a, b := Hex(digits, v, n), Hex(digits, w, n);
      assert a[n - 1] == b[n - 1];
      assert v % 16 == w % 16;
      assert Hex(digits, v / 16, n - 1) == a[..n - 1] == b[..n - 1] == Hex(digits, w / 16, n - 1);
      HexInjective(digits, v / 16, w / 16, n - 1);
    }
  }

  lemma Powers()
    ensures Power16(2) == 0x100 && Power16(4) == 0x1_0000 && Power16(8) == 0x1_0000_0000
  {
    assert Power16(1) == 16;
    assert Power16(3) == 0x1000;
    assert Power16(6) == 0x100_0000;
  }

  lemma HexByteDigits(digits: string, b: nat, v: nat, n: nat)
    requires |digits| == 16 && b < 256
    ensures Hex(digits, b + 256 * v, n + 2) == Hex(digits, v, n) + [digits[b / 16], digits[b % 16]]
  {
    var w := b + 256 * v;
    assert w % 16 == b % 16 && w / 16 == b / 16 + 16 * v;
    assert (w / 16) % 16 == b / 16 && w / 16 / 16 == v;
    assert Hex(digits, w, n + 2) == Hex(digits, w / 16, n + 1) + [digits[b % 16]];
    assert Hex(digits, w / 16, n + 1) == Hex(digits, v, n) + [digits[b / 16]];
  }

  lemma HexPair(digits: string, b: nat)
    requires |digits| == 16 && b < 256
    ensures Hex(digits, b, 2) == [digits[b / 16], digits[b % 16]]
  {
    HexByteDigits(digits, b, 0, 0);
  }

  /** The low byte of a number takes the last two digits. */
  lemma HexByte(digits: string, b: nat, v: nat, n: nat)
    requires |digits| == 16 && b < 256
    ensures Hex(digits, b + 256 * v, n + 2) == Hex(digits, v, n) + Hex(digits, b, 2)
  {
    HexByteDigits(digits, b, v, n);
    HexPair(digits, b);
  }

  lemma Joined3(a: string, b: string, c: string)
    ensures a + b + c == a + (b + c)
  {
  }

  /** And the low two bytes the last four. */
  lemma HexWord(digits: string, lo: nat, hi: nat, v: nat, n: nat, two: nat)
    requires |digits| == 16 && lo < 256 && hi < 256 && two == 2
    ensures Hex(digits, lo + 256 * (hi + 256 * v), n + two + two) == Hex(digits, v, n) + Hex(digits, lo + 256 * hi, two + two)
  {
    HexByte(digits, lo, hi + 256 * v, n + two);
    HexByte(digits, hi, v, n);
    HexByte(digits, lo, hi, two);
    Joined3(Hex(digits, v, n), Hex(digits, hi, two), Hex(digits, lo, two));
  }
}
