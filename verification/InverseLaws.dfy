/** What the inverse transform makes of a single coefficient: the product of two cosines, rounded
    twice to nearest. */
module InverseLaws {
  import opened Common
  import opened Butterfly
  import opened TransTable
  import opened TransCosine
  import opened Rounding
  import opened EvenOdd
  import opened InverseSpec

  lemma {:induction false} AtIsProduct(off: nat, strd: nat, y: nat)
    ensures At(off, strd, y) == off + y * strd
  {
    if y > 0 {
      AtIsProduct(off, strd, y - 1);
      assert y * strd == (y - 1) * strd + strd;
    }
  }

  /** Only entry r of x is not zero. */
  predicate Single(x: seq<int>, r: nat) {
    r < |x| && forall i | 0 <= i < |x| && i != r :: x[i] == 0
  }

  lemma {:induction false} TermsOfSingle(g: seq<seq<int>>, x: seq<int>, k: nat, r: nat, rows: nat)
    requires Square(g, |g|) && k < |g| && rows <= |x| <= |g| && Single(x, r)
    ensures Terms(g, x, k, 0, 1, rows) == if r < rows then g[r][k] * x[r] else 0
  {
    if rows > 0 { TermsOfSingle(g, x, k, r, rows - 1); }
  }

  /** The product of a single entry is its row of the matrix, scaled. */
  lemma ProdOfSingle(n: nat, x: seq<int>, r: nat, k: nat)
    requires IsSize(n) && |x| == n && Single(x, r) && k < n
    ensures Prod(n, x)[k] == Coefficient()(Base(n, r), k) * x[r]
  {
    var g := Table(n);
    TermsOfSingle(g, x, k, r, n);
    CosineLaw(n, r, k);
    assert g[r] == StoredFamily()(n, r) == Stored(n, r);
  }

  /** The block holds v in row r of column c, and zero elsewhere. */
  predicate Impulse(src: seq<int>, strd: nat, n: nat, c: nat, r: nat, v: int)
    requires SourceFits(src, strd, n)
  {
    c < n && r < n && forall i, j | 0 <= i < n && 0 <= j < n ::
      At(i, strd, j) < |src| && src[At(i, strd, j)] == if i == c && j == r then v else 0
  }

  lemma ImpulseColumn(src: seq<int>, strd: nat, n: nat, c: nat, r: nat, v: int, i: nat, j: nat)
    requires SourceFits(src, strd, n) && Impulse(src, strd, n, c, r, v) && i < n && j < n
    ensures Column(src, i, strd, n)[j] == if i == c && j == r then v else 0
  {
    AtIsProduct(i, strd, j);
    assert src[At(i, strd, j)] == if i == c && j == r then v else 0;
  }

  lemma ZeroProd(n: nat, x: seq<int>, k: nat)
    requires IsSize(n) && |x| == n && k < n && forall i | 0 <= i < n :: x[i] == 0
    ensures Prod(n, x)[k] == 0
  {
    ProdShort(n, [], x);
  }

  /** The first stage spreads it over its column, along the cosine of its row. */
  lemma ImpulseInter(src: seq<int>, strd: nat, n: nat, c: nat, r: nat, v: int, i: nat, y: nat)
    requires SourceFits(src, strd, n) && Impulse(src, strd, n, c, r, v) && i < n && y < n
    ensures Inter(n, src, strd, i, y) == if i == c then Stage1Out(Coefficient()(Base(n, r), y) * v) else 0
  {
    var x := Column(src, i, strd, n);
    forall j | 0 <= j < n
      ensures x[j] == if i == c && j == r then v else 0
    {
      ImpulseColumn(src, strd, n, c, r, v, i, j);
    }
    if i == c { ProdOfSingle(n, x, r, y); } else { ZeroProd(n, x, y); }
  }

  /** The second stage spreads that over the row, along the cosine of its column. */
  lemma ImpulseResponse(src: seq<int>, strd: nat, n: nat, c: nat, r: nat, v: int, bitDepth: nat, y: nat, x: nat, p: int)
    requires SourceFits(src, strd, n) && Impulse(src, strd, n, c, r, v) && 1 <= bitDepth < 20 && y < n && x < n
    ensures var inter := Stage1Out(Coefficient()(Base(n, r), y) * v);
      Recon(n, src, strd, bitDepth, y, x, p) == Rounded(Coefficient()(Base(n, c), x) * inter, p, bitDepth)
  {
    var row := InterRow(n, src, strd, y);
    forall i | 0 <= i < n
      ensures row[i] == if i == c then Stage1Out(Coefficient()(Base(n, r), y) * v) else 0
    {
      ImpulseInter(src, strd, n, c, r, v, i, y);
    }
    ProdOfSingle(n, row, c, x);
  }

  /** The first rounding: inside 16 bits, the nearest integer to d / 128, and up on ties. */
  lemma Stage1Nearest(d: int)
    ensures var s := Stage1Out(d);
      if -32768 * 128 - 64 <= d < 32768 * 128 - 64 then -64 <= d - 128 * s < 64
      else s == if d < 0 then -32768 else 32767
  {
  }

  /** The second rounding: inside the bit depth, the prediction moves by the nearest integer to
      d / 2^(20 - bitDepth), and up on ties. */
  lemma RoundedNearest(d: int, p: int, bitDepth: nat)
    requires 1 <= bitDepth < 20 && 0 < Rounded(d, p, bitDepth) < Pow2(bitDepth) - 1
    ensures var half: int := Pow2(19 - bitDepth);
      -half <= d - 2 * half * (Rounded(d, p, bitDepth) - p) < half
  {
    var half, whole := Pow2(19 - bitDepth), Pow2(20 - bitDepth);
    var q := (d + half) / whole;
    assert whole == 2 * half && d + half == whole * q + (d + half) % whole;
  }
}
