/** Sums of products over residue classes of rows, and the even/odd butterfly
    that splits a matrix-vector product by the symmetries of the columns. */
module Butterfly {
  import opened Common

  /** g has n rows of n entries. */
  ghost predicate Square(g: seq<seq<int>>, n: nat) {
    |g| == n && forall r | 0 <= r < n :: |g[r]| == n
  }

  /** Rows that are multiples of s, restricted to their first w columns, are
      alternately symmetric and antisymmetric about the middle. */
  ghost predicate Mirrored(g: seq<seq<int>>, s: nat, w: nat)
    requires Square(g, |g|) && s > 0
  {
    w <= |g| &&
    forall r, k | 0 <= r < |g| && r % s == 0 && 0 <= k < w ::
      g[r][w - 1 - k] == if r % (2 * s) == 0 then g[r][k] else -g[r][k]
  }

  /** g[r][k] * x[r] summed, in increasing r, over the rows r < rows with r % step == first. */
  function Terms(g: seq<seq<int>>, x: seq<int>, k: nat, first: nat, step: nat, rows: nat): int
    requires Square(g, |g|) && k < |g| && rows <= |x| && rows <= |g| && step > 0
  {
    if rows == 0 then 0
    else
      Terms(g, x, k, first, step, rows - 1) +
      if (rows - 1) % step == first then g[rows - 1][k] * x[rows - 1] else 0
  }

  /** Entry k of the plain product of the transposed matrix and x. */
  function Direct(g: seq<seq<int>>, x: seq<int>, k: nat): int
    requires Square(g, |g|) && k < |g| && |x| <= |g|
  {
    Terms(g, x, k, 0, 1, |x|)
  }

  /** The plain product of the transposed matrix and x. */
  function Product(g: seq<seq<int>>, x: seq<int>): (d: seq<int>)
    requires Square(g, |g|) && |x| <= |g|
    ensures |d| == |g| && forall k | 0 <= k < |d| :: d[k] == Direct(g, x, k)
  {
    seq(|g|, k requires 0 <= k < |g| => Direct(g, x, k))
  }

  lemma SplitClass(r: nat, s: nat)
    requires s > 0
    ensures r % s == 0 <==> r % (2 * s) == 0 || r % (2 * s) == s
  {
    var q, m := r / (2 * s), r % (2 * s);
    assert r == 2 * s * q + m == s * (2 * q) + m;
    if m < s {
      DivModUnique(r, s, 2 * q, m);
    } else {
      assert r == s * (2 * q + 1) + (m - s);
      DivModUnique(r, s, 2 * q + 1, m - s);
    }
  }

  /** One butterfly stage: the half at k and its mirror image come from the same
      even and odd sums. This is the combine step the transforms repeat at every level. */
  lemma {:induction false} ButterflyStep(g: seq<seq<int>>, x: seq<int>, s: nat, w: nat, k: nat, rows: nat)
    requires Square(g, |g|) && s > 0 && Mirrored(g, s, w) && k < w
    requires rows <= |x| && rows <= |g|
    ensures Terms(g, x, k, 0, s, rows) == Terms(g, x, k, 0, 2 * s, rows) + Terms(g, x, k, s, 2 * s, rows)
    ensures Terms(g, x, w - 1 - k, 0, s, rows)
         == Terms(g, x, k, 0, 2 * s, rows) - Terms(g, x, k, s, 2 * s, rows)
  {
    if rows > 0 {
      var r := rows - 1;
      ButterflyStep(g, x, s, w, k, r);
      SplitClass(r, s);
      if r % s == 0 && r % (2 * s) != 0 {
        assert g[r][w - 1 - k] == -g[r][k];
        assert -g[r][k] * x[r] == -(g[r][k] * x[r]);
      }
    }
  }

  /** The recursive butterfly on the rows that are multiples of Pow2(j), for a matrix of
      size Pow2(m): the even half recurses, the odd half is summed directly. */
  function Fast(g: seq<seq<int>>, x: seq<int>, m: nat, j: nat): (y: seq<int>)
    requires Square(g, Pow2(m)) && |x| == Pow2(m) && j <= m
    ensures |y| == Pow2(m - j)
    decreases m - j
  {
    if j == m then [g[0][0] * x[0]]
    else
      var e := Fast(g, x, m, j + 1);
      var h := |e|;
      PowSplit(m, j);
      seq(2 * h, k requires 0 <= k < 2 * h =>
        if k < h then e[k] + Terms(g, x, k, Pow2(j), Pow2(j + 1), |x|)
        else e[2 * h - 1 - k] - Terms(g, x, 2 * h - 1 - k, Pow2(j), Pow2(j + 1), |x|))
  }

  lemma TwiceProduct(p: nat, q: nat)
    ensures (2 * p) * q == 2 * (p * q)
  {
  }

  lemma {:induction false} PowSplit(m: nat, j: nat)
    requires j <= m
    ensures Pow2(m) == Pow2(j) * Pow2(m - j)
    ensures Pow2(m - j) <= Pow2(m)
  {
    if j > 0 {
      PowSplit(m - 1, j - 1);
      assert m - 1 - (j - 1) == m - j;
      TwiceProduct(Pow2(j - 1), Pow2(m - j));
    }
  }

  /** A matrix whose even rows repeat, level by level, the symmetry of cosine bases. */
  ghost predicate Hierarchical(g: seq<seq<int>>, m: nat)
    requires Square(g, Pow2(m))
  {
    forall j | 0 <= j < m :: Mirrored(g, Pow2(j), Pow2(m - j))
  }

  /** For every power-of-two size and every hierarchical matrix, the recursive
      butterfly computes the plain matrix-vector product. */
  lemma FastIsDirect(g: seq<seq<int>>, x: seq<int>, m: nat, k: nat)
    requires Square(g, Pow2(m)) && |x| == Pow2(m) && Hierarchical(g, m) && k < Pow2(m)
    ensures Fast(g, x, m, 0)[k] == Direct(g, x, k)
  {
    FastLevel(g, x, m, 0, k);
  }

  lemma {:induction false} FastLevel(g: seq<seq<int>>, x: seq<int>, m: nat, j: nat, k: nat)
    requires Square(g, Pow2(m)) && |x| == Pow2(m) && Hierarchical(g, m) && j <= m && k < Pow2(m - j)
    ensures k < Pow2(m) && Fast(g, x, m, j)[k] == Terms(g, x, k, 0, Pow2(j), |x|)
    decreases m - j
  {
    PowSplit(m, j);
    var s, w := Pow2(j), Pow2(m - j);
    if j == m {
      OnlyRowZero(g, x, k, |x|);
    } else {
      var h := Pow2(m - j - 1);
      var i := if k < h then k else 2 * h - 1 - k;
      FastLevel(g, x, m, j + 1, i);
      FastSplit(g, x, m, j, k);
      assert Mirrored(g, s, w);
      ButterflyStep(g, x, s, w, i, |x|);
    }
  }

  lemma FastSplit(g: seq<seq<int>>, x: seq<int>, m: nat, j: nat, k: nat)
    requires Square(g, Pow2(m)) && |x| == Pow2(m) && j < m && k < Pow2(m - j)
    ensures Pow2(m - j) == 2 * Pow2(m - j - 1) <= Pow2(m)
    ensures var h := Pow2(m - j - 1);
      var i := if k < h then k else 2 * h - 1 - k;
      var odd := Terms(g, x, i, Pow2(j), 2 * Pow2(j), |x|);
      Fast(g, x, m, j)[k] == Fast(g, x, m, j + 1)[i] + if k < h then odd else -odd
  {
    PowSplit(m, j);
  }

  lemma {:induction false} OnlyRowZero(g: seq<seq<int>>, x: seq<int>, k: nat, rows: nat)
    requires Square(g, |g|) && k < |g| == |x| && 0 < rows <= |x|
    ensures Terms(g, x, k, 0, |x|, rows) == g[0][k] * x[0]
  {
    if rows == 1 {
      assert Terms(g, x, k, 0, |x|, 0) == 0;
    } else {
      OnlyRowZero(g, x, k, rows - 1);
      SmallMod(rows - 1, |x|);
    }
  }

  lemma SmallMod(r: nat, n: nat)
    requires r < n
    ensures r % n == r
  {
  }

  /** Rows of zeros past the end of x add nothing, so a truncated sum is the full one. */
  lemma {:induction false} ZeroTail(g: seq<seq<int>>, x: seq<int>, full: seq<int>, k: nat, rows: nat)
    requires Square(g, |g|) && k < |g| && |x| <= rows <= |full| <= |g|
    requires forall r | 0 <= r < |x| :: x[r] == full[r]
    requires forall r | |x| <= r < rows :: full[r] == 0
    ensures Terms(g, full, k, 0, 1, rows) == Direct(g, x, k)
  {
    if rows > |x| {
      ZeroTail(g, x, full, k, rows - 1);
    } else {
      SamePrefix(g, x, full, k, rows);
    }
  }

  lemma {:induction false} SamePrefix(g: seq<seq<int>>, x: seq<int>, y: seq<int>, k: nat, rows: nat)
    requires Square(g, |g|) && k < |g| && rows <= |g| && rows <= |x| && rows <= |y|
    requires forall r | 0 <= r < rows :: x[r] == y[r]
    ensures Terms(g, x, k, 0, 1, rows) == Terms(g, y, k, 0, 1, rows)
  {
    if rows > 0 { SamePrefix(g, x, y, k, rows - 1); }
  }

  /** Coefficients are at most 90 in magnitude. */
  ghost predicate Bounded(g: seq<seq<int>>, n: nat)
    requires Square(g, n)
  {
    forall r, k | 0 <= r < n && 0 <= k < n :: -90 <= g[r][k] <= 90
  }

  ghost predicate Is16Bit(x: seq<int>) {
    forall r | 0 <= r < |x| :: -32768 <= x[r] < 32768
  }

  /** Every partial sum of 16-bit inputs, over any residue class, is small: with at most
      32 rows it is far inside 32 bits. */
  lemma {:induction false} TermsBound(g: seq<seq<int>>, x: seq<int>, k: nat, first: nat, step: nat, rows: nat)
    requires Square(g, |g|) && Bounded(g, |g|) && Is16Bit(x)
    requires k < |g| && rows <= |x| && rows <= |g| && step > 0
    ensures -2949120 * rows <= Terms(g, x, k, first, step, rows) <= 2949120 * rows
  {
    if rows > 0 {
      TermsBound(g, x, k, first, step, rows - 1);
      ProductBound(g[rows - 1][k], x[rows - 1]);
    }
  }

  lemma ProductBound(c: int, v: int)
    requires -90 <= c <= 90 && -32768 <= v < 32768
    ensures -2949120 <= c * v <= 2949120
  {
    if c >= 0 {
      MulMono(-32768, v, c);
      MulMono(v, 32767, c);
    } else {
      MulMono(-32768, v, -c);
      MulMono(v, 32767, -c);
      assert c * v == -(v * -c);
    }
  }
}
