/** The two-stage inverse transform and reconstruction of sections 8.6.2 to 8.6.4.2 of H.265:
    plain matrix products, no butterflies, no shortcuts, no clip of the second-stage output. */
module InverseSpec {
  import opened Common
  import opened Butterfly
  import opened TransTable
  import opened Rounding
  import opened EvenOdd

  /** The rows of a strided column lie inside a buffer of the given length. */
  predicate Fits(length: int, off: nat, strd: nat, rows: nat) {
    rows > 0 ==> off + (rows - 1) * strd < length
  }

  function Column(s: seq<int>, off: nat, strd: nat, rows: nat): (x: seq<int>)
    requires Fits(|s|, off, strd, rows)
    ensures |x| == rows
  {
    seq(rows, r requires 0 <= r < rows => MulMono(r, rows - 1, strd); s[off + r * strd])
  }

  lemma Column16(s: seq<int>, off: nat, strd: nat, rows: nat)
    requires Fits(|s|, off, strd, rows) && Is16Bit(s)
    ensures Is16Bit(Column(s, off, strd, rows))
  {
    forall r | 0 <= r < rows
      ensures -32768 <= Column(s, off, strd, rows)[r] < 32768
    {
      MulMono(r, rows - 1, strd);
    }
  }

  /** The buffer holds all columns of the block. */
  predicate SourceFits(src: seq<int>, strd: nat, n: nat) {
    IsSize(n) && n - 1 + (n - 1) * strd < |src|
  }

  /** The first-stage output for source column c at vertical position y. */
  ghost function Inter(n: nat, src: seq<int>, strd: nat, c: nat, y: nat): int16
    requires SourceFits(src, strd, n) && c < n && y < n
  {
    Stage1Out(Prod(n, Column(src, c, strd, n))[y])
  }

  /** Row y of the first-stage output, over all columns. */
  ghost function InterRow(n: nat, src: seq<int>, strd: nat, y: nat): (x: seq<int>)
    requires SourceFits(src, strd, n) && y < n
    ensures |x| == n && Is16Bit(x)
  {
    seq(n, c requires 0 <= c < n => Inter(n, src, strd, c, y))
  }

  /** The sample for prediction p and product d: the residual is d, rounded by a shift of
      20 - bitDepth. */
  function Rounded(d: int, p: int, bitDepth: nat): (s: int)
    requires 1 <= bitDepth < 20
    ensures 0 <= s < Pow2(bitDepth)
  {
    Clip3(p + (d + Pow2(19 - bitDepth)) / Pow2(20 - bitDepth), 0, Pow2(bitDepth) - 1)
  }

  /** The reconstructed sample at row y, column x for prediction p: the residual is the
      second product. */
  ghost function Recon(n: nat, src: seq<int>, strd: nat, bitDepth: nat, y: nat, x: nat, p: int): (s: int)
    requires SourceFits(src, strd, n) && y < n && x < n && 1 <= bitDepth < 20
    ensures 0 <= s < Pow2(bitDepth)
  {
    Rounded(Prod(n, InterRow(n, src, strd, y))[x], p, bitDepth)
  }

  /** Clipping the second-stage output to 16 bits never changes the reconstructed sample. */
  lemma ClipNeutral(v: int, p: int, limit: int)
    requires 0 <= p <= limit <= 32767
    ensures Clip3(ClipS16(v) + p, 0, limit) == Clip3(p + v, 0, limit)
  {
  }

  /** A column that is zero from some row on may be transformed from its leading rows alone;
      with no leading rows at all the result is zero. */
  lemma ColumnOutcome(n: nat, src: seq<int>, strd: nat, c: nat, rows: nat)
    requires SourceFits(src, strd, n) && c < n && rows <= n
    requires forall r | rows <= r < n :: Column(src, c, strd, n)[r] == 0
    ensures Fits(|src|, c, strd, rows)
    ensures forall y | 0 <= y < n :: Inter(n, src, strd, c, y) == Stage1Out(Prod(n, Column(src, c, strd, rows))[y])
    ensures rows == 0 ==> forall y | 0 <= y < n :: Inter(n, src, strd, c, y) == 0
  {
    if rows > 0 { MulMono(rows - 1, n - 1, strd); }
    ProdShort(n, Column(src, c, strd, rows), Column(src, c, strd, n));
  }

  lemma DepthBound(bitDepth: nat)
    requires bitDepth <= 15
    ensures Pow2(bitDepth) <= 32768
  {
    Pow2Mono(bitDepth, 15);
    Pow2Values();
  }

  lemma SampleIsRecon(d: int, p: int, bitDepth: nat)
    requires 1 <= bitDepth <= 15 && 0 <= p < Pow2(bitDepth)
    ensures Sample(d, p, Pow2(19 - bitDepth), 20 - bitDepth, Pow2(bitDepth) - 1)
         == Rounded(d, p, bitDepth)
  {
    ShrIsDivision(d + Pow2(19 - bitDepth), 20 - bitDepth);
    DepthBound(bitDepth);
    ClipNeutral(Shr(d + Pow2(19 - bitDepth), 20 - bitDepth), p, Pow2(bitDepth) - 1);
  }

  /** A row of n interleaved samples starting at base lies in the buffer. */
  predicate RowFits(length: int, base: nat, n: nat) {
    base + 2 * n <= length + 1
  }

  /** A row of samples for the products d and the predictions from pBase on. */
  function RoundedRow(d: seq<int>, bitDepth: nat, pred: seq<int>, pBase: nat): (w: seq<int>)
    requires 1 <= bitDepth < 20 && RowFits(|pred|, pBase, |d|)
    ensures |w| == |d|
    ensures forall x | 0 <= x < |d| :: w[x] == Rounded(d[x], pred[pBase + 2 * x], bitDepth)
  {
    seq(|d|, x requires 0 <= x < |d| => Rounded(d[x], pred[pBase + 2 * x], bitDepth))
  }

  /** Row y of the reconstruction, for the predictions from pBase on. */
  ghost function ReconRow(n: nat, src: seq<int>, strd: nat, bitDepth: nat, y: nat, pred: seq<int>, pBase: nat):
    (w: seq<int>)
    requires SourceFits(src, strd, n) && y < n && 1 <= bitDepth < 20 && RowFits(|pred|, pBase, n)
    ensures |w| == n
  {
    RoundedRow(Prod(n, InterRow(n, src, strd, y)), bitDepth, pred, pBase)
  }

  lemma ReconRowAt(n: nat, src: seq<int>, strd: nat, bitDepth: nat, y: nat, pred: seq<int>, pBase: nat,
                   x: nat, p: int)
    requires SourceFits(src, strd, n) && y < n && 1 <= bitDepth < 20 && RowFits(|pred|, pBase, n) && x < n
    requires p == pred[pBase + 2 * x]
    ensures ReconRow(n, src, strd, bitDepth, y, pred, pBase)[x] == Recon(n, src, strd, bitDepth, y, x, p)
  {
  }

  /** The samples of the row have the given bit depth. */
  predicate RowDepth(s: seq<int>, base: nat, n: nat, bitDepth: nat) {
    forall i | 0 <= i < |s| && OnRow(i, base, n) :: 0 <= s[i] < Pow2(bitDepth)
  }

  /** Entry x of w is the sample as the second stage computes it. */
  predicate SampleEntry(w: seq<int>, d: seq<int>, pred: seq<int>, pBase: nat, add: int, shift: nat, limit: int, x: nat)
    requires |w| == |d| && RowFits(|pred|, pBase, |d|) && x < |d|
  {
    w[x] == Sample(d[x], pred[pBase + 2 * x], add, shift, limit)
  }

  lemma SampleRowUnique(w: seq<int>, d: seq<int>, pred: seq<int>, pBase: nat, add: int, shift: nat, limit: int)
    requires |w| == |d| > 0 && RowFits(|pred|, pBase, |d|)
    requires forall x | 0 <= x < |d| :: SampleEntry(w, d, pred, pBase, add, shift, limit, x)
    ensures SampleRow(d, pred, pBase, add, shift, limit) == w
  {
    var l := SampleRow(d, pred, pBase, add, shift, limit);
    forall x | 0 <= x < |d|
      ensures l[x] == w[x]
    {
      assert SampleEntry(w, d, pred, pBase, add, shift, limit, x);
    }
  }

  lemma RoundedEntry(d: seq<int>, bitDepth: nat, pred: seq<int>, pBase: nat, x: nat)
    requires 1 <= bitDepth <= 15 && x < |d| && RowFits(|pred|, pBase, |d|) && RowDepth(pred, pBase, |d|, bitDepth)
    ensures SampleEntry(RoundedRow(d, bitDepth, pred, pBase), d, pred, pBase,
                        Pow2(19 - bitDepth), 20 - bitDepth, Pow2(bitDepth) - 1, x)
  {
    assert OnRow(pBase + 2 * x, pBase, |d|);
    SampleIsRecon(d[x], pred[pBase + 2 * x], bitDepth);
  }

  lemma SampleRowIsRounded(d: seq<int>, bitDepth: nat, pred: seq<int>, pBase: nat)
    requires |d| > 0 && 1 <= bitDepth <= 15 && RowFits(|pred|, pBase, |d|) && RowDepth(pred, pBase, |d|, bitDepth)
    ensures SampleRow(d, pred, pBase, Pow2(19 - bitDepth), 20 - bitDepth, Pow2(bitDepth) - 1)
         == RoundedRow(d, bitDepth, pred, pBase)
  {
    var w := RoundedRow(d, bitDepth, pred, pBase);
    var add, shift, limit := Pow2(19 - bitDepth), 20 - bitDepth, Pow2(bitDepth) - 1;
    forall x | 0 <= x < |d|
      ensures SampleEntry(w, d, pred, pBase, add, shift, limit, x)
    {
      RoundedEntry(d, bitDepth, pred, pBase, x);
    }
    SampleRowUnique(w, d, pred, pBase, add, shift, limit);
  }

  predicate SameEntry(pred: seq<int>, p: seq<int>, pBase: nat, x: nat) {
    pBase + 2 * x < |pred| == |p| && pred[pBase + 2 * x] == p[pBase + 2 * x]
  }

  /** Only the samples of the row matter. */
  lemma RoundedRowSame(d: seq<int>, bitDepth: nat, pred: seq<int>, p: seq<int>, pBase: nat)
    requires 1 <= bitDepth < 20 && |pred| == |p| && RowFits(|p|, pBase, |d|)
    requires forall x | 0 <= x < |d| :: SameEntry(pred, p, pBase, x)
    ensures RoundedRow(d, bitDepth, pred, pBase) == RoundedRow(d, bitDepth, p, pBase)
  {
    var l, r := RoundedRow(d, bitDepth, pred, pBase), RoundedRow(d, bitDepth, p, pBase);
    forall x | 0 <= x < |d|
      ensures l[x] == r[x]
    {
      assert SameEntry(pred, p, pBase, x);
    }
  }

  lemma SampleRowIsReconRow(n: nat, src: seq<int>, strd: nat, bitDepth: nat, y: nat, pred: seq<int>, pBase: nat)
    requires SourceFits(src, strd, n) && y < n && 1 <= bitDepth <= 15 && RowFits(|pred|, pBase, n)
    requires RowDepth(pred, pBase, n, bitDepth)
    ensures SampleRow(Prod(n, InterRow(n, src, strd, y)), pred, pBase,
                      Pow2(19 - bitDepth), 20 - bitDepth, Pow2(bitDepth) - 1)
         == ReconRow(n, src, strd, bitDepth, y, pred, pBase)
  {
    SampleRowIsRounded(Prod(n, InterRow(n, src, strd, y)), bitDepth, pred, pBase);
  }

  /** All rows of a block of n interleaved samples lie in the buffer. */
  predicate BlockFits(length: int, off: nat, strd: nat, n: nat) {
    n > 0 && RowFits(length, At(off, strd, n - 1), n)
  }

  /** Where a block is: offset of its first sample and distance between its rows. */
  datatype Place = Place(off: nat, strd: nat) {
    function Row(y: nat): nat { At(off, strd, y) }

    function Cell(y: nat, x: nat): nat { Row(y) + 2 * x }
  }

  /** One sample of the block is the reconstruction. */
  ghost predicate Done(out: seq<int>, pred: seq<int>, to: Place, from: Place,
                       n: nat, src: seq<int>, strd: nat, bitDepth: nat, y: nat, x: nat)
    requires SourceFits(src, strd, n) && 1 <= bitDepth < 20 && y < n && x < n
  {
    && to.Cell(y, x) < |out| && from.Cell(y, x) < |pred|
    && out[to.Cell(y, x)] == Recon(n, src, strd, bitDepth, y, x, pred[from.Cell(y, x)])
  }

  /** The first `rows` rows of a block have been reconstructed from the predictions, and
      nothing else has changed: neither the samples of the other component, nor anything
      outside the block. */
  ghost predicate Reconstructed(out: seq<int>, was: seq<int>, pred: seq<int>, to: Place, from: Place,
                                n: nat, src: seq<int>, strd: nat, bitDepth: nat, rows: nat)
    requires SourceFits(src, strd, n) && 1 <= bitDepth < 20 && rows <= n
  {
    && |out| == |was|
    && (forall y, x | 0 <= y < rows && 0 <= x < n :: Done(out, pred, to, from, n, src, strd, bitDepth, y, x))
    && (forall i | 0 <= i < |out| && (forall y | 0 <= y < rows :: !OnRow(i, to.Row(y), n)) :: out[i] == was[i])
  }

  /** An earlier row is not touched. */
  lemma StillDone(out: seq<int>, u: seq<int>, pred: seq<int>, to: Place, from: Place,
                  n: nat, src: seq<int>, strd: nat, bitDepth: nat, j: nat, w: seq<int>, y: nat, x: nat)
    requires SourceFits(src, strd, n) && 1 <= bitDepth < 20 && y < j < n && x < n && 2 * n <= to.strd + 1
    requires RowFits(|out|, to.Row(j), n) && |w| == n && Replaced(u, out, to.Row(j), w)
    requires Done(out, pred, to, from, n, src, strd, bitDepth, y, x)
    ensures Done(u, pred, to, from, n, src, strd, bitDepth, y, x)
  {
    AtGap(to.off, to.strd, y, j);
    assert !OnRow(to.Cell(y, x), to.Row(j), n);
  }

  lemma NowDone(out: seq<int>, u: seq<int>, pred: seq<int>, to: Place, from: Place,
                n: nat, src: seq<int>, strd: nat, bitDepth: nat, j: nat, w: seq<int>, x: nat)
    requires SourceFits(src, strd, n) && 1 <= bitDepth < 20 && j < n && x < n && |w| == n
    requires RowFits(|pred|, from.Row(j), n) && RowFits(|out|, to.Row(j), n) && Replaced(u, out, to.Row(j), w)
    requires w[x] == Recon(n, src, strd, bitDepth, j, x, pred[from.Cell(j, x)])
    ensures Done(u, pred, to, from, n, src, strd, bitDepth, j, x)
  {
    assert OnRow(to.Cell(j, x), to.Row(j), n);
  }

  lemma ReconstructedStep(out: seq<int>, u: seq<int>, was: seq<int>, pred: seq<int>, to: Place, from: Place,
                          n: nat, src: seq<int>, strd: nat, bitDepth: nat, j: nat)
    requires SourceFits(src, strd, n) && 1 <= bitDepth < 20 && j < n && 2 * n <= to.strd + 1
    requires Reconstructed(out, was, pred, to, from, n, src, strd, bitDepth, j)
    requires RowFits(|pred|, from.Row(j), n) && RowFits(|out|, to.Row(j), n)
    requires Replaced(u, out, to.Row(j), ReconRow(n, src, strd, bitDepth, j, pred, from.Row(j)))
    ensures Reconstructed(u, was, pred, to, from, n, src, strd, bitDepth, j + 1)
  {
    forall y, x | 0 <= y < j + 1 && 0 <= x < n
      ensures Done(u, pred, to, from, n, src, strd, bitDepth, y, x)
    {
      var w := ReconRow(n, src, strd, bitDepth, j, pred, from.Row(j));
      if y < j {
        StillDone(out, u, pred, to, from, n, src, strd, bitDepth, j, w, y, x);
      } else {
        ReconRowAt(n, src, strd, bitDepth, j, pred, from.Row(j), x, pred[from.Cell(j, x)]);
        NowDone(out, u, pred, to, from, n, src, strd, bitDepth, j, w, x);
      }
    }
  }

  /** While rows are reconstructed in place, the predictions of the next row are still there. */
  lemma NextRowUnchanged(out: seq<int>, was: seq<int>, to: Place, from: Place,
                         n: nat, src: seq<int>, strd: nat, bitDepth: nat, j: nat)
    requires SourceFits(src, strd, n) && 1 <= bitDepth < 20 && j < n && 2 * n <= to.strd + 1
    requires Reconstructed(out, was, was, to, from, n, src, strd, bitDepth, j)
    ensures forall i | 0 <= i < |out| && OnRow(i, to.Row(j), n) :: out[i] == was[i]
  {
    forall i | 0 <= i < |out| && OnRow(i, to.Row(j), n)
      ensures out[i] == was[i]
    {
      forall y | 0 <= y < j
        ensures !OnRow(i, to.Row(y), n)
      {
        AtGap(to.off, to.strd, y, j);
      }
    }
  }

  /** The outcome is a function of the source block, the predictions and the old destination:
      no mask, scratch content or branch can make a difference. */
  lemma ReconstructedUnique(out: seq<int>, out': seq<int>, was: seq<int>, pred: seq<int>, to: Place, from: Place,
                            n: nat, src: seq<int>, strd: nat, bitDepth: nat)
    requires SourceFits(src, strd, n) && 1 <= bitDepth < 20
    requires Reconstructed(out, was, pred, to, from, n, src, strd, bitDepth, n)
    requires Reconstructed(out', was, pred, to, from, n, src, strd, bitDepth, n)
    ensures out == out'
  {
    forall i | 0 <= i < |was|
      ensures out[i] == out'[i]
    {
      if y :| 0 <= y < n && OnRow(i, to.Row(y), n) {
        var x := (i - to.Row(y)) / 2;
        assert i == to.Cell(y, x);
        assert Done(out, pred, to, from, n, src, strd, bitDepth, y, x);
        assert Done(out', pred, to, from, n, src, strd, bitDepth, y, x);
      }
    }
  }
}
