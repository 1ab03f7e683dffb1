/** The local even/odd arrays of the 4-, 8-, 16- and 32-point inverse transforms. A caller
    passes only the rows its branch consults; the longer sums of the other branches are the
    same residue-class sums over more rows. */
module EvenOdd {
  import opened Common
  import opened Butterfly
  import opened TransTable
  import opened Rounding

  /** A residue-class sum as a 32-bit value: all its partial sums fit as well. */
  function Sum(g: seq<seq<int>>, n: nat, x: seq<int>, k: nat, first: nat, step: nat): (s: int32)
    requires IsSize(n) && IsTransform(g, n) && Is16Bit(x)
    requires |x| <= n && k < n && step > 0
    ensures s == Terms(g, x, k, first, step, |x|)
  {
    TermsBound(g, x, k, first, step, |x|);
    Terms(g, x, k, first, step, |x|)
  }

  /** The butterfly at stride s for width w, on sums that are known to fit in 32 bits. */
  lemma Step(g: seq<seq<int>>, n: nat, x: seq<int>, s: nat, w: nat, k: nat)
    requires IsSize(n) && IsTransform(g, n) && Factors(n, s, w) && Is16Bit(x) && |x| <= n
    requires 1 < w && 2 * k < w
    ensures Sum(g, n, x, k, 0, s) == Sum(g, n, x, k, 0, 2 * s) + Sum(g, n, x, k, s, 2 * s)
    ensures Sum(g, n, x, w - 1 - k, 0, s) == Sum(g, n, x, k, 0, 2 * s) - Sum(g, n, x, k, s, 2 * s)
  {
    ButterflyStep(g, x, s, w, k, |x|);
  }

  lemma Combine(g: seq<seq<int>>, n: nat, x: seq<int>, e: seq<int>, o: seq<int>)
    requires IsSize(n) && IsTransform(g, n) && Is16Bit(x) && |x| <= n && |e| == |o| == n / 2
    requires forall k | 0 <= k < n / 2 :: e[k] == Sum(g, n, x, k, 0, 2) && o[k] == Sum(g, n, x, k, 1, 2)
    ensures Sums(e, o) == Product(g, x) && Small(Product(g, x))
  {
    var d := Product(g, x);
    forall k | 0 <= k < n
      ensures -0x600_0000 <= d[k] <= 0x600_0000
      ensures Sums(e, o)[k] == d[k]
    {
      TermsBound(g, x, k, 0, 1, |x|);
      Step(g, n, x, 1, n, if k < n / 2 then k else n - 1 - k);
    }
  }

  method EvenOdd4(g: seq<seq<int>>, x: seq<int>, e: array<int32>, o: array<int32>)
    requires IsTransform(g, 4) && Is16Bit(x) && |x| <= 4
    requires e.Length == o.Length == 2 && e != o
    modifies e, o
    ensures Sums(e[..], o[..]) == Product(g, x) && Small(Product(g, x))
  {
    o[0] := Sum(g, 4, x, 0, 1, 2);
    o[1] := Sum(g, 4, x, 1, 1, 2);
    e[0] := Sum(g, 4, x, 0, 0, 2);
    e[1] := Sum(g, 4, x, 1, 0, 2);
    Combine(g, 4, x, e[..], o[..]);
  }

  /** One loop filling o, eo or eeo with a residue-class sum per column. */
  method Fill(g: seq<seq<int>>, n: nat, x: seq<int>, first: nat, step: nat, a: array<int32>)
    requires IsSize(n) && IsTransform(g, n) && Is16Bit(x) && |x| <= n && step > 0 && a.Length <= n
    modifies a
    ensures forall k | 0 <= k < a.Length :: a[k] == Sum(g, n, x, k, first, step)
  {
    for k := 0 to a.Length
      invariant forall i | 0 <= i < k :: a[i] == Sum(g, n, x, i, first, step)
    {
      a[k] := Sum(g, n, x, k, first, step);
    }
  }

  /** The unrolled combine of two even and two odd sums into four. */
  method Quad(g: seq<seq<int>>, n: nat, x: seq<int>, s: nat, ee: array<int32>, eo: array<int32>, e: array<int32>)
    requires IsSize(n) && IsTransform(g, n) && Is16Bit(x) && |x| <= n && Factors(n, s, 4)
    requires ee.Length == eo.Length == 2 && e.Length == 4 && e != ee && e != eo
    requires forall k | 0 <= k < 2 :: ee[k] == Sum(g, n, x, k, 0, 2 * s) && eo[k] == Sum(g, n, x, k, s, 2 * s)
    modifies e
    ensures forall k | 0 <= k < 4 :: e[k] == Sum(g, n, x, k, 0, s)
  {
    Step(g, n, x, s, 4, 0);
    Step(g, n, x, s, 4, 1);
    e[0] := ee[0] + eo[0];
    e[3] := ee[0] - eo[0];
    e[1] := ee[1] + eo[1];
    e[2] := ee[1] - eo[1];
  }

  /** The combine loop: e[k] = ee[k] + eo[k], e[k + h] = ee[h - 1 - k] - eo[h - 1 - k]. */
  method Unfold(g: seq<seq<int>>, n: nat, x: seq<int>, s: nat, h: nat,
                ee: array<int32>, eo: array<int32>, e: array<int32>)
    requires IsSize(n) && IsTransform(g, n) && Is16Bit(x) && |x| <= n && Factors(n, s, 2 * h) && h > 0
    requires ee.Length == eo.Length == h && e.Length == 2 * h && e != ee && e != eo
    requires forall k | 0 <= k < h :: ee[k] == Sum(g, n, x, k, 0, 2 * s) && eo[k] == Sum(g, n, x, k, s, 2 * s)
    modifies e
    ensures forall k | 0 <= k < 2 * h :: e[k] == Sum(g, n, x, k, 0, s)
  {
    for k := 0 to h
      invariant forall i | 0 <= i < k :: e[i] == Sum(g, n, x, i, 0, s)
      invariant forall i | h <= i < h + k :: e[i] == Sum(g, n, x, i, 0, s)
    {
      Step(g, n, x, s, 2 * h, k);
      Step(g, n, x, s, 2 * h, h - 1 - k);
      e[k] := ee[k] + eo[k];
      e[k + h] := ee[h - 1 - k] - eo[h - 1 - k];
    }
  }

  method EvenOdd8(g: seq<seq<int>>, x: seq<int>, e: array<int32>, o: array<int32>)
    requires IsTransform(g, 8) && Is16Bit(x) && |x| <= 8
    requires e.Length == o.Length == 4 && e != o
    modifies e, o
    ensures Sums(e[..], o[..]) == Product(g, x) && Small(Product(g, x))
  {
    var ee, eo := new int32[2], new int32[2];
    Fill(g, 8, x, 1, 2, o);
    Fill(g, 8, x, 2, 4, eo);
    Fill(g, 8, x, 0, 4, ee);
    Quad(g, 8, x, 2, ee, eo, e);
    Combine(g, 8, x, e[..], o[..]);
  }

  method EvenOdd16(g: seq<seq<int>>, x: seq<int>, e: array<int32>, o: array<int32>)
    requires IsTransform(g, 16) && Is16Bit(x) && |x| <= 16
    requires e.Length == o.Length == 8 && e != o
    modifies e, o
    ensures Sums(e[..], o[..]) == Product(g, x) && Small(Product(g, x))
  {
    var ee, eo := new int32[4], new int32[4];
    var eee, eeo := new int32[2], new int32[2];
    Fill(g, 16, x, 1, 2, o);
    Fill(g, 16, x, 2, 4, eo);
    Fill(g, 16, x, 4, 8, eeo);
    Fill(g, 16, x, 0, 8, eee);
    Unfold(g, 16, x, 4, 2, eee, eeo, ee);
    Unfold(g, 16, x, 2, 4, ee, eo, e);
    Combine(g, 16, x, e[..], o[..]);
  }

  method EvenOdd32(g: seq<seq<int>>, x: seq<int>, e: array<int32>, o: array<int32>)
    requires IsTransform(g, 32) && Is16Bit(x) && |x| <= 32
    requires e.Length == o.Length == 16 && e != o
    modifies e, o
    ensures Sums(e[..], o[..]) == Product(g, x) && Small(Product(g, x))
  {
    var ee, eo := new int32[8], new int32[8];
    var eee, eeo := new int32[4], new int32[4];
    var eeee, eeeo := new int32[2], new int32[2];
    Fill(g, 32, x, 1, 2, o);
    Fill(g, 32, x, 2, 4, eo);
    Fill(g, 32, x, 4, 8, eeo);
    Fill(g, 32, x, 8, 16, eeeo);
    Fill(g, 32, x, 0, 16, eeee);
    Quad(g, 32, x, 8, eeee, eeeo, eee);
    Unfold(g, 32, x, 4, 4, eee, eeo, ee);
    Unfold(g, 32, x, 2, 8, ee, eo, e);
    Combine(g, 32, x, e[..], o[..]);
  }

  /** The n-point inverse transform of x as a plain product, with no rounding. */
  ghost function Prod(n: nat, x: seq<int>): (d: seq<int>)
    requires IsSize(n) && |x| <= n
    ensures |d| == n
  {
    Product(Table(n), x)
  }

  method EvenOddN(n: nat, x: seq<int>, e: array<int32>, o: array<int32>)
    requires IsSize(n) && Is16Bit(x) && |x| <= n
    requires e.Length == o.Length == n / 2 && e != o
    modifies e, o
    ensures Sums(e[..], o[..]) == Prod(n, x) && Small(Prod(n, x))
  {
    TableIsTransform(n);
    if n == 4 {
      EvenOdd4(Table(4), x, e, o);
    } else if n == 8 {
      EvenOdd8(Table(8), x, e, o);
    } else if n == 16 {
      EvenOdd16(Table(16), x, e, o);
    } else {
      EvenOdd32(Table(32), x, e, o);
    }
  }

  /** Rows of zeros past the end of x add nothing, so a truncated product is the full one. */
  lemma ProdShort(n: nat, x: seq<int>, full: seq<int>)
    requires IsSize(n) && |x| <= n && |full| == n
    requires forall r | 0 <= r < |x| :: x[r] == full[r]
    requires forall r | |x| <= r < n :: full[r] == 0
    ensures Prod(n, full) == Prod(n, x)
    ensures x == [] ==> forall y | 0 <= y < n :: Prod(n, full)[y] == 0
  {
    forall y | 0 <= y < n
      ensures Prod(n, full)[y] == Prod(n, x)[y]
      ensures x == [] ==> Prod(n, full)[y] == 0
    {
      ZeroTail(Table(n), x, full, y, n);
    }
  }
}
