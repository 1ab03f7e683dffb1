/** Integer widths, clips and index arithmetic shared by the other modules. */
module Common {

  type int32 = x: int | -0x8000_0000 <= x < 0x8000_0000
  type int16 = x: int | -32768 <= x < 32768
  type uint8 = x: int | 0 <= x < 256

  /** A 32-bit flag word, bit 0 first. */
  type FlagWord = f: seq<bool> | |f| == 32
    witness seq(32, _ => false)

  /** Block sizes of transform and prediction. */
  predicate IsSize(n: nat) {
    n == 4 || n == 8 || n == 16 || n == 32
  }

  /** CLIP3(x, lo, hi): the upper bound is tested first, as in the macro. */
  function Clip3(x: int, lo: int, hi: int): int {
    if x > hi then hi else if x < lo then lo else x
  }

  function ClipS16(x: int): int16 { Clip3(x, -32768, 32767) }

  function ClipU8(x: int): uint8 { Clip3(x, 0, 255) }

  function Abs(x: int): int { if x > 0 then x else -x }

  function Min(x: int, y: int): int { if x < y then x else y }

  function Pow2(n: nat): (p: nat)
    ensures p >= 1
  {
    if n == 0 then 1 else 2 * Pow2(n - 1)
  }

  /** Arithmetic shift right, one position at a time. */
  function Shr(v: int, n: nat): int
    decreases n
  {
    if n == 0 then v else Shr(v / 2, n - 1)
  }

  /** Shifting right is division by a power of two, rounded towards minus infinity. */
  lemma {:induction false} ShrIsDivision(v: int, n: nat)
    ensures Shr(v, n) == v / Pow2(n)
    decreases n
  {
    if n > 0 {
      ShrIsDivision(v / 2, n - 1);
      DivDiv(v, Pow2(n - 1));
    }
  }

  lemma DivDiv(v: int, p: nat)
    requires p > 0
    ensures v / 2 / p == v / (2 * p)
  {
    var q, m := v / (2 * p), v % (2 * p);
    assert v == 2 * p * q + m;
    var h := v / 2;
    assert h == p * q + m / 2;
    DivModUnique(h, p, q, m / 2);
  }

  lemma DivModUnique(r: int, s: int, q: int, m: int)
    requires s > 0 && r == s * q + m && 0 <= m < s
    ensures r / s == q && r % s == m
  {
    var d := r / s - q;
    assert s * d == m - r % s;
    assert d >= 1 ==> s * d >= s;
    assert d <= -1 ==> s * d <= -s;
  }

  lemma MulMono(a: int, b: int, s: int)
    requires a <= b && 0 <= s
    ensures a * s <= b * s
  {
    assert (b - a) * s >= 0;
  }

  /** A later row starts at least one stride after an earlier one. */
  lemma RowGap(a: int, b: int, s: int)
    requires a < b && 0 <= s
    ensures a * s + s <= b * s
  {
    MulMono(a + 1, b, s);
    assert (a + 1) * s == a * s + s;
  }

  lemma {:induction false} Pow2Mono(a: nat, b: nat)
    requires a <= b
    ensures Pow2(a) <= Pow2(b)
  {
    if a < b { Pow2Mono(a, b - 1); }
  }

  lemma Pow2Values()
    ensures Pow2(7) == 128 && Pow2(8) == 256 && Pow2(11) == 2048 && Pow2(12) == 4096
    ensures Pow2(15) == 32768 && Pow2(16) == 65536 && Pow2(18) == 262144
  {
    assert Pow2(4) == 16;
    assert Pow2(8) == 256;
    assert Pow2(12) == 4096;
    assert Pow2(16) == 65536;
  }

  /** Start of row y of a block: off + y * strd, by repeated advance of the row pointer. */
  function At(off: nat, strd: nat, y: nat): nat {
    if y == 0 then off else At(off, strd, y - 1) + strd
  }

  lemma {:induction false} AtGap(off: nat, strd: nat, y: nat, z: nat)
    requires y < z
    ensures At(off, strd, y) + strd <= At(off, strd, z)
  {
    if y < z - 1 { AtGap(off, strd, y, z - 1); }
  }

  lemma AtMono(off: nat, strd: nat, y: nat, z: nat)
    requires y <= z
    ensures At(off, strd, y) <= At(off, strd, z)
  {
    if y < z { AtGap(off, strd, y, z); }
  }

  /** A sequence with one element taken out. */
  function Without<T>(s: seq<T>, k: nat): (r: seq<T>)
    requires k < |s|
    ensures |r| == |s| - 1
    ensures forall i | 0 <= i < |r| :: r[i] == if i < k then s[i] else s[i + 1]
  {
    s[..k] + s[k + 1..]
  }

  // Pictures of any kind of sample.

  type Grid<T> = seq<seq<T>>

  /** All rows have w samples. */
  predicate Rect<T>(pic: Grid<T>, w: nat) {
    forall y | 0 <= y < |pic| :: |pic[y]| == w
  }

  function Transposed<T>(pic: Grid<T>, w: nat): (t: Grid<T>)
    requires Rect(pic, w)
    ensures |t| == w && Rect(t, |pic|)
  {
    seq(w, x requires 0 <= x < w => seq(|pic|, y requires 0 <= y < |pic| => pic[y][x]))
  }

  lemma TransposedTwice<T>(pic: Grid<T>, w: nat)
    requires Rect(pic, w)
    ensures Transposed(Transposed(pic, w), |pic|) == pic
  {
    var t := Transposed(Transposed(pic, w), |pic|);
    forall y | 0 <= y < |pic|
      ensures t[y] == pic[y]
    {
    }
  }
}
