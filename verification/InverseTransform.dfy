/** The inverse transform and reconstruction functions for one component of interleaved
    chroma, 8-bit and high bit depth. */
module InverseTransform {
  import opened Common
  import opened Butterfly
  import opened TransTable
  import opened Rounding
  import opened EvenOdd
  import opened InverseSpec

  /** (mask & ones from..below) == ones from..below. */
  predicate AllSet(mask: FlagWord, from: nat, below: nat)
    requires below <= 32
  {
    forall i | from <= i < below :: mask[i]
  }

  /** mask >> 1 on a signed word: the sign bit is repeated. */
  function ShiftRight(mask: FlagWord): FlagWord {
    mask[1..] + [mask[31]]
  }

  /** Leading rows (or columns) that a branch consults under a zero mask. */
  function Limit(n: nat, mask: FlagWord): (limit: nat)
    requires IsSize(n)
    ensures limit <= n && forall i | limit <= i < n :: mask[i]
  {
    if AllSet(mask, 4, n) then 4 else if n > 8 && AllSet(mask, 8, n) then 8 else n
  }

  /** Every column whose bit is set is zero. */
  ghost predicate ZeroColsTruthful(src: seq<int>, strd: nat, n: nat, zeroCols: FlagWord)
    requires SourceFits(src, strd, n)
  {
    forall c, r | 0 <= c < n && zeroCols[c] && 0 <= r < n :: Column(src, c, strd, n)[r] == 0
  }

  /** Every row whose bit is set is zero. */
  ghost predicate ZeroRowsTruthful(src: seq<int>, strd: nat, n: nat, zeroRows: FlagWord)
    requires SourceFits(src, strd, n)
  {
    forall c, r | 0 <= c < n && 0 <= r < n && zeroRows[r] :: Column(src, c, strd, n)[r] == 0
  }

  /** Rounded product of x to the scratch row at base, by the butterfly. */
  method TransformRow(n: nat, x: seq<int>, tmp: array<int16>, base: nat)
    requires IsSize(n) && Is16Bit(x) && |x| <= n && base + n <= tmp.Length
    modifies tmp
    ensures forall i | base <= i < base + n :: tmp[i] == Stage1Out(Prod(n, x)[i - base])
    ensures forall i | 0 <= i < tmp.Length && !(base <= i < base + n) :: tmp[i] == old(tmp[i])
  {
    var h := n / 2;
    var e, o := new int32[h], new int32[h];
    EvenOddN(n, x, e, o);
    StoreColumn(Sums(e[..], o[..]), h, tmp, base);
  }

  /** One pass of the first stage: column j of the source to the scratch row at base. */
  method TransformColumn(n: nat, src: array<int16>, srcStrd: nat, tmp: array<int16>,
                         j: nat, base: nat, zero: bool, rows: nat)
    requires SourceFits(src[..], srcStrd, n) && tmp != src
    requires j < n && rows <= n && base + n <= tmp.Length
    requires forall r | 0 <= r < n && (zero || rows <= r) :: Column(src[..], j, srcStrd, n)[r] == 0
    modifies tmp
    ensures forall i | base <= i < base + n :: tmp[i] == Inter(n, old(src[..]), srcStrd, j, i - base)
    ensures forall i | 0 <= i < tmp.Length && !(base <= i < base + n) :: tmp[i] == old(tmp[i])
  {
    ghost var s := src[..];
    ColumnOutcome(n, s, srcStrd, j, if zero then 0 else rows);
    if zero {
      ClearRow(n, tmp, base);
    } else {
      var x := Column(src[..], j, srcStrd, rows);
      Column16(s, j, srcStrd, rows);
      TransformRow(n, x, tmp, base);
    }
  }

  /** Scratch rows 0 .. j - 1 hold the first-stage output of columns 0 .. j - 1. */
  ghost predicate Holds(t: seq<int>, n: nat, src: seq<int>, strd: nat, j: nat)
    requires SourceFits(t, n, n) && SourceFits(src, strd, n) && j <= n
  {
    forall c, y | 0 <= c < j && 0 <= y < n :: Column(t, y, n, n)[c] == Inter(n, src, strd, c, y)
  }

  lemma HoldsStep(t: seq<int>, u: seq<int>, n: nat, src: seq<int>, strd: nat, j: nat, base: nat)
    requires SourceFits(t, n, n) && SourceFits(src, strd, n) && j < n
    requires Holds(t, n, src, strd, j) && |u| == |t| && base == j * n && base + n <= |t|
    requires forall i | base <= i < base + n :: u[i] == Inter(n, src, strd, j, i - base)
    requires forall i | 0 <= i < |t| && !(base <= i < base + n) :: u[i] == t[i]
    ensures Holds(u, n, src, strd, j + 1)
  {
    forall c, y | 0 <= c < j + 1 && 0 <= y < n
      ensures Column(u, y, n, n)[c] == Inter(n, src, strd, c, y)
    {
      if c < j {
        RowGap(c, j, n);
        assert Column(t, y, n, n)[c] == t[y + c * n];
      }
    }
  }

  /** After j shifts, bit 0 of zc is bit j of the mask. */
  predicate Shifted(zc: FlagWord, mask: FlagWord, j: nat) {
    forall i | 0 <= i < 32 - j :: zc[i] == mask[i + j]
  }

  lemma ShiftOnce(zc: FlagWord, mask: FlagWord, j: nat)
    requires Shifted(zc, mask, j) && j < 32
    ensures zc[0] == mask[j] && Shifted(ShiftRight(zc), mask, j + 1)
  {
  }

  /** First stage: columns of the source to rows of the scratch buffer, up to the limit.
      The scratch rows past the limit keep whatever they held. */
  method Stage1(n: nat, src: array<int16>, srcStrd: nat, tmp: array<int16>,
                zeroCols: FlagWord, limit: nat, rows: nat)
    requires SourceFits(tmp[..], n, n) && SourceFits(src[..], srcStrd, n)
    requires tmp != src && limit <= n && rows <= n
    requires ZeroColsTruthful(src[..], srcStrd, n, zeroCols)
    requires forall c, r | 0 <= c < n && rows <= r < n :: Column(src[..], c, srcStrd, n)[r] == 0
    modifies tmp
    ensures Holds(tmp[..], n, src[..], srcStrd, limit)
  {
    var zc := zeroCols;
    ghost var s := src[..];
    for j := 0 to limit
      invariant src[..] == s
      invariant Shifted(zc, zeroCols, j)
      invariant Holds(tmp[..], n, s, srcStrd, j)
    {
      ghost var before := tmp[..];
      MulMono(j, n - 1, n);
      ShiftOnce(zc, zeroCols, j);
      TransformColumn(n, src, srcStrd, tmp, j, j * n, zc[0], rows);
      HoldsStep(before, tmp[..], n, s, srcStrd, j, j * n);
      zc := ShiftRight(zc);
    }
  }

  /** One row of the second stage, from the first `limit` scratch rows. */
  method Stage2Row(n: nat, ghost src: seq<int>, ghost srcStrd: nat, tmp: array<int16>, limit: nat, y: nat,
                   pred: array<int>, pBase: nat, dst: array<int>, base: nat, ghost bitDepth: nat,
                   add: int32, shift: nat, clipLimit: int)
    requires SourceFits(tmp[..], n, n) && SourceFits(src, srcStrd, n) && y < n && limit <= n
    requires Holds(tmp[..], n, src, srcStrd, limit)
    requires forall c | limit <= c < n :: Inter(n, src, srcStrd, c, y) == 0
    requires RowFits(pred.Length, pBase, n) && RowFits(dst.Length, base, n)
    requires pred == dst ==> pBase == base
    requires 1 <= bitDepth <= 15 && RowDepth(pred[..], pBase, n, bitDepth)
    requires add == Pow2(19 - bitDepth) && shift == 20 - bitDepth && clipLimit == Pow2(bitDepth) - 1
    modifies dst
    ensures Replaced(dst[..], old(dst[..]), base, ReconRow(n, src, srcStrd, bitDepth, y, old(pred[..]), pBase))
  {
    var x := Column(tmp[..], y, n, limit);
    ScratchRow(tmp[..], n, src, srcStrd, limit, y);
    SampleRowIsReconRow(n, src, srcStrd, bitDepth, y, pred[..], pBase);
    Pow2Mono(19 - bitDepth, 18);
    Pow2Values();
    TransformSamples(n, x, pred, pBase, dst, base, add, shift, clipLimit);
  }

  /** The leading scratch column equals the row of first-stage outputs, up to its zeros. */
  lemma ScratchRow(t: seq<int16>, n: nat, src: seq<int>, strd: nat, limit: nat, y: nat)
    requires SourceFits(t, n, n) && SourceFits(src, strd, n) && y < n && limit <= n
    requires Holds(t, n, src, strd, limit)
    requires forall c | limit <= c < n :: Inter(n, src, strd, c, y) == 0
    ensures Fits(|t|, y, n, limit) && Is16Bit(Column(t, y, n, limit))
    ensures Prod(n, Column(t, y, n, limit)) == Prod(n, InterRow(n, src, strd, y))
  {
    MulMono(limit - 1, n - 1, n);
    Column16(t, y, n, limit);
    var x := Column(t, y, n, limit);
    forall c | 0 <= c < limit
      ensures x[c] == InterRow(n, src, strd, y)[c]
    {
      assert x[c] == Column(t, y, n, n)[c];
    }
    ProdShort(n, x, InterRow(n, src, strd, y));
  }

  /** Product of x, by the butterfly, rounded onto the predictions of one row. */
  method TransformSamples(n: nat, x: seq<int>, pred: array<int>, pBase: nat, dst: array<int>, base: nat,
                          add: int32, shift: nat, clipLimit: int)
    requires IsSize(n) && Is16Bit(x) && |x| <= n && 0 <= add <= 0x100_0000
    requires RowFits(pred.Length, pBase, n) && RowFits(dst.Length, base, n)
    requires pred == dst ==> pBase == base
    modifies dst
    ensures Replaced(dst[..], old(dst[..]), base, SampleRow(Prod(n, x), old(pred[..]), pBase, add, shift, clipLimit))
  {
    var h := n / 2;
    var e, o := new int32[h], new int32[h];
    EvenOddN(n, x, e, o);
    StoreSamples(Sums(e[..], o[..]), h, pred, pBase, dst, base, add, shift, clipLimit);
  }

  /** Where the samples go and come from: inside their buffers, rows not overlapping, and
      at the same place when the block is reconstructed in place. */
  ghost predicate Placed(pred: array<int>, from: Place, dst: array<int>, to: Place, n: nat, bitDepth: nat)
    reads pred
  {
    && n > 0 && BlockFits(pred.Length, from.off, from.strd, n) && BlockFits(dst.Length, to.off, to.strd, n)
    && 2 * n <= to.strd + 1
    && (pred == dst ==> from == to)
    && 1 <= bitDepth <= 15
    && forall y | 0 <= y < n :: RowDepth(pred[..], from.Row(y), n, bitDepth)
  }

  /** Second stage: rows of the output from the columns of the scratch buffer. */
  method Stage2(n: nat, ghost src: seq<int>, ghost srcStrd: nat, tmp: array<int16>, limit: nat,
                pred: array<int>, from: Place, dst: array<int>, to: Place, ghost bitDepth: nat,
                add: int32, shift: nat, clipLimit: int)
    requires SourceFits(tmp[..], n, n) && SourceFits(src, srcStrd, n) && limit <= n
    requires Holds(tmp[..], n, src, srcStrd, limit)
    requires forall c, y | limit <= c < n && 0 <= y < n :: Inter(n, src, srcStrd, c, y) == 0
    requires Placed(pred, from, dst, to, n, bitDepth)
    requires add == Pow2(19 - bitDepth) && shift == 20 - bitDepth && clipLimit == Pow2(bitDepth) - 1
    modifies dst
    ensures Reconstructed(dst[..], old(dst[..]), old(pred[..]), to, from, n, src, srcStrd, bitDepth, n)
  {
    var pBase, base := from.off, to.off;
    ghost var was, p, t := dst[..], pred[..], tmp[..];
    for j := 0 to n
      invariant pBase == from.Row(j) && base == to.Row(j) && tmp[..] == t
      invariant pred[..] == if pred == dst then dst[..] else p
      invariant Reconstructed(dst[..], was, p, to, from, n, src, srcStrd, bitDepth, j)
    {
      ghost var out := dst[..];
      AtMono(from.off, from.strd, j, n - 1);
      AtMono(to.off, to.strd, j, n - 1);
      SameRow(out, was, p, pred, from, dst, to, n, src, srcStrd, bitDepth, j);
      Stage2Row(n, src, srcStrd, tmp, limit, j, pred, pBase, dst, base, bitDepth, add, shift, clipLimit);
      ReconstructedStep(out, dst[..], was, p, to, from, n, src, srcStrd, bitDepth, j);
      pBase := pBase + from.strd;
      base := base + to.strd;
    }
  }

  /** The predictions of row j are still those of the start, in place or not. */
  lemma SameRow(out: seq<int>, was: seq<int>, p: seq<int>, pred: array<int>, from: Place, dst: array<int>, to: Place,
                n: nat, src: seq<int>, srcStrd: nat, bitDepth: nat, j: nat)
    requires SourceFits(src, srcStrd, n) && 1 <= bitDepth < 20 && j < n && 2 * n <= to.strd + 1
    requires |p| == pred.Length && RowFits(|p|, from.Row(j), n) && RowDepth(p, from.Row(j), n, bitDepth)
    requires pred == dst ==> from == to && p == was && pred[..] == out
    requires pred != dst ==> pred[..] == p
    requires Reconstructed(out, was, p, to, from, n, src, srcStrd, bitDepth, j)
    ensures RowDepth(pred[..], from.Row(j), n, bitDepth)
    ensures ReconRow(n, src, srcStrd, bitDepth, j, pred[..], from.Row(j))
         == ReconRow(n, src, srcStrd, bitDepth, j, p, from.Row(j))
  {
    if pred == dst {
      NextRowUnchanged(out, was, to, from, n, src, srcStrd, bitDepth, j);
      forall x | 0 <= x < n
        ensures SameEntry(out, p, from.Row(j), x)
      {
        assert OnRow(from.Row(j) + 2 * x, to.Row(j), n);
      }
      RoundedRowSame(Prod(n, InterRow(n, src, srcStrd, j)), bitDepth, out, p, from.Row(j));
    }
  }

  /** Columns past the limit transform to zero: their mask bits are set. */
  lemma PastLimit(n: nat, src: seq<int>, strd: nat, zeroCols: FlagWord, limit: nat)
    requires SourceFits(src, strd, n) && ZeroColsTruthful(src, strd, n, zeroCols)
    requires forall c | limit <= c < n :: zeroCols[c]
    ensures forall c, y | limit <= c < n && 0 <= y < n :: Inter(n, src, strd, c, y) == 0
  {
    forall c, y | limit <= c < n && 0 <= y < n
      ensures Inter(n, src, strd, c, y) == 0
    {
      ColumnOutcome(n, src, strd, c, 0);
    }
  }

  lemma PastRows(n: nat, src: seq<int>, strd: nat, zeroRows: FlagWord, rows: nat)
    requires SourceFits(src, strd, n) && ZeroRowsTruthful(src, strd, n, zeroRows)
    requires forall r | rows <= r < n :: zeroRows[r]
    ensures forall c, r | 0 <= c < n && rows <= r < n :: Column(src, c, strd, n)[r] == 0
  {
    forall c, r | 0 <= c < n && rows <= r < n
      ensures Column(src, c, strd, n)[r] == 0
    {
      assert zeroRows[r];
    }
  }

  /** What a caller hands to the transforms. */
  ghost predicate Input(n: nat, src: array<int16>, srcStrd: nat, tmp: array<int16>,
                        zeroCols: FlagWord, zeroRows: FlagWord)
    reads src, tmp
  {
    && SourceFits(src[..], srcStrd, n) && SourceFits(tmp[..], n, n) && src != tmp
    && ZeroColsTruthful(src[..], srcStrd, n, zeroCols) && ZeroRowsTruthful(src[..], srcStrd, n, zeroRows)
  }

  /** ihevc_chroma_itrans_recon_<n>x<n>: whatever the masks let it skip, and whatever the
      scratch buffer held, the outcome is the full two-stage transform. */
  method ItransRecon(n: nat, src: array<int16>, tmp: array<int16>, pred: array<int>, dst: array<int>,
                     srcStrd: nat, from: Place, to: Place, zeroCols: FlagWord, zeroRows: FlagWord)
    requires Input(n, src, srcStrd, tmp, zeroCols, zeroRows) && Placed(pred, from, dst, to, n, 8)
    modifies tmp, dst
    ensures Reconstructed(dst[..], old(dst[..]), old(pred[..]), to, from, n, old(src[..]), srcStrd, 8, n)
  {
    ghost var s := src[..];
    var limit := Limit(n, zeroCols);
    var rows := if n <= 8 then n else Limit(n, zeroRows);
    PastLimit(n, s, srcStrd, zeroCols, limit);
    PastRows(n, s, srcStrd, zeroRows, rows);
    Stage1(n, src, srcStrd, tmp, zeroCols, limit, rows);
    Pow2Values();
    Stage2(n, s, srcStrd, tmp, limit, pred, from, dst, to, 8, 2048, 12, 255);
  }

  /** (1 << u1_bit_depth) - 1 stored in a signed 16-bit variable. */
  function ClipLimit(bitDepth: nat): int16 {
    (Pow2(bitDepth) - 1 + 32768) % 65536 - 32768
  }

  /** The clip limit survives its 16-bit variable exactly up to bit depth 15. */
  lemma ClipLimitExact(bitDepth: nat)
    ensures ClipLimit(bitDepth) == Pow2(bitDepth) - 1 <==> bitDepth <= 15
  {
    Pow2Values();
    if bitDepth <= 15 { Pow2Mono(bitDepth, 15); } else { Pow2Mono(16, bitDepth); }
  }

  /** ihevc_hbd_chroma_itrans_recon_<n>x<n>. */
  method HbdItransRecon(n: nat, src: array<int16>, tmp: array<int16>, pred: array<int>, dst: array<int>,
                        srcStrd: nat, from: Place, to: Place, zeroCols: FlagWord, zeroRows: FlagWord, bitDepth: nat)
    requires Input(n, src, srcStrd, tmp, zeroCols, zeroRows) && Placed(pred, from, dst, to, n, bitDepth)
    modifies tmp, dst
    ensures Reconstructed(dst[..], old(dst[..]), old(pred[..]), to, from, n, old(src[..]), srcStrd, bitDepth, n)
  {
    ghost var s := src[..];
    var limit := Limit(n, zeroCols);
    var rows := if n <= 8 then n else Limit(n, zeroRows);
    PastLimit(n, s, srcStrd, zeroCols, limit);
    PastRows(n, s, srcStrd, zeroRows, rows);
    Stage1(n, src, srcStrd, tmp, zeroCols, limit, rows);
    Pow2Mono(19 - bitDepth, 18);
    Pow2Values();
    ClipLimitExact(bitDepth);
    var shift := 20 - bitDepth;
    Stage2(n, s, srcStrd, tmp, limit, pred, from, dst, to, bitDepth, Pow2(shift - 1), shift, ClipLimit(bitDepth));
  }
}
