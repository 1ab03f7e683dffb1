/** The last butterfly stage with rounding: from the even and odd arrays to a scratch row or
    to a row of reconstructed samples. */
module Rounding {
  import opened Common

  /** e[k] + o[k] in the first half, e[h - 1 - k] - o[h - 1 - k] at k + h in the second. */
  function Sums(e: seq<int>, o: seq<int>): (v: seq<int>)
    requires |e| == |o|
    ensures |v| == 2 * |e|
  {
    seq(2 * |e|, k requires 0 <= k < 2 * |e| =>
      if k < |e| then e[k] + o[k] else e[2 * |e| - 1 - k] - o[2 * |e| - 1 - k])
  }

  /** Small enough that adding the rounding constant stays inside 32 bits. */
  ghost predicate Small(v: seq<int>) {
    forall k | 0 <= k < |v| :: -0x600_0000 <= v[k] <= 0x600_0000
  }

  /** First-stage rounding and clipping of one product entry: a shift by 7. */
  function Stage1Out(d: int): int16 {
    ClipS16((d + 64) / 128)
  }

  /** Rounds one transformed column of 2 * h entries into the scratch row at base. */
  method StoreColumn(v: seq<int>, h: nat, tmp: array<int16>, base: nat)
    requires |v| == 2 * h && Small(v) && base + 2 * h <= tmp.Length
    modifies tmp
    ensures forall i | base <= i < base + 2 * h :: tmp[i] == Stage1Out(v[i - base])
    ensures forall i | 0 <= i < tmp.Length && !(base <= i < base + 2 * h) :: tmp[i] == old(tmp[i])
  {
    for k := 0 to h
      invariant forall i | base <= i < base + k :: tmp[i] == Stage1Out(v[i - base])
      invariant forall i | base + h <= i < base + h + k :: tmp[i] == Stage1Out(v[i - base])
      invariant forall i | 0 <= i < tmp.Length && !(base <= i < base + 2 * h) :: tmp[i] == old(tmp[i])
    {
      var plus: int32 := v[k] + 64;
      var minus: int32 := v[k + h] + 64;
      tmp[base + k] := ClipS16(plus / 128);
      tmp[base + k + h] := ClipS16(minus / 128);
    }
  }

  method ClearRow(n: nat, tmp: array<int16>, base: nat)
    requires base + n <= tmp.Length
    modifies tmp
    ensures forall i | 0 <= i < tmp.Length :: tmp[i] == if base <= i < base + n then 0 else old(tmp[i])
  {
    for k := 0 to n
      invariant forall i | 0 <= i < tmp.Length :: tmp[i] == if base <= i < base + k then 0 else old(tmp[i])
    {
      tmp[base + k] := 0;
    }
  }

  /** Second-stage rounding, clipping to 16 bits and reconstruction on prediction p. */
  function Sample(d: int, p: int, add: int, shift: nat, limit: int): int {
    Clip3(ClipS16(Shr(d + add, shift)) + p, 0, limit)
  }

  /** Position i holds a sample of the row of `count` samples, two apart, from base on. */
  predicate OnRow(i: int, base: nat, count: nat) {
    base <= i < base + 2 * count && (i - base) % 2 == 0
  }

  /** The reconstructed row for products v and the predictions from pBase on. */
  ghost function SampleRow(v: seq<int>, pred: seq<int>, pBase: nat, add: int, shift: nat, limit: int): (w: seq<int>)
    requires |v| > 0 && pBase + 2 * |v| - 1 <= |pred|
    ensures |w| == |v|
  {
    seq(|v|, k requires 0 <= k < |v| => Sample(v[k], pred[pBase + 2 * k], add, shift, limit))
  }

  /** r is `was` after samples 0 .. k - 1 and h .. h + k - 1 from base on have become those of w. */
  ghost predicate Partial(r: seq<int>, was: seq<int>, base: nat, h: nat, k: nat, w: seq<int>)
    requires k <= h && |w| == 2 * h
  {
    |r| == |was| && forall i | 0 <= i < |r| ::
      r[i] == if OnRow(i, base, k) || OnRow(i, base + 2 * h, k) then w[(i - base) / 2] else was[i]
  }

  lemma PartialStep(r: seq<int>, was: seq<int>, base: nat, h: nat, k: nat, w: seq<int>, u: seq<int>)
    requires k < h && |w| == 2 * h && Partial(r, was, base, h, k, w) && base + 4 * h - 1 <= |r| == |u|
    requires u[base + 2 * k] == w[k] && u[base + 2 * (k + h)] == w[k + h]
    requires forall i | 0 <= i < |r| && i != base + 2 * k && i != base + 2 * (k + h) :: u[i] == r[i]
    ensures Partial(u, was, base, h, k + 1, w)
  {
  }

  /** The two samples of iteration k have not been written yet. */
  lemma PartialUnwritten(r: seq<int>, was: seq<int>, base: nat, h: nat, k: nat, w: seq<int>)
    requires k < h && |w| == 2 * h && Partial(r, was, base, h, k, w) && base + 4 * h - 1 <= |r|
    ensures r[base + 2 * k] == was[base + 2 * k]
    ensures r[base + 2 * (k + h)] == was[base + 2 * (k + h)]
  {
  }

  /** One iteration of the reconstruction loop: a sample of each half of the row. */
  method PutPair(v: seq<int>, h: nat, k: nat, pred: array<int>, pBase: nat, dst: array<int>, base: nat,
                 add: int32, shift: nat, limit: int, ghost was: seq<int>, ghost w: seq<int>)
    requires k < h && |v| == |w| == 2 * h && Small(v) && 0 <= add <= 0x100_0000
    requires pBase + 4 * h - 1 <= pred.Length && base + 4 * h - 1 <= dst.Length
    requires pred == dst ==> pBase == base
    requires Partial(dst[..], was, base, h, k, w)
    requires w[k] == Sample(v[k], pred[pBase + 2 * k], add, shift, limit)
    requires w[k + h] == Sample(v[k + h], pred[pBase + 2 * (k + h)], add, shift, limit)
    modifies dst
    ensures Partial(dst[..], was, base, h, k + 1, w)
  {
    ghost var r := dst[..];
    var rounded: int32 := v[k] + add;
    dst[base + 2 * k] := Clip3(ClipS16(Shr(rounded, shift)) + pred[pBase + 2 * k], 0, limit);
    rounded := v[k + h] + add;
    dst[base + 2 * (k + h)] := Clip3(ClipS16(Shr(rounded, shift)) + pred[pBase + 2 * (k + h)], 0, limit);
    PartialStep(r, was, base, h, k, w, dst[..]);
  }

  /** r is `was` with every sample of the row from base on replaced by w. */
  ghost predicate Replaced(r: seq<int>, was: seq<int>, base: nat, w: seq<int>) {
    |r| == |was| && forall i | 0 <= i < |r| :: r[i] == if OnRow(i, base, |w|) then w[(i - base) / 2] else was[i]
  }

  lemma PartialDone(r: seq<int>, was: seq<int>, base: nat, h: nat, w: seq<int>)
    requires |w| == 2 * h && Partial(r, was, base, h, h, w)
    ensures Replaced(r, was, base, w)
  {
  }

  /** Reads prediction samples and writes every second destination entry from base on. The
      two may be the same row. */
  method StoreSamples(v: seq<int>, h: nat, pred: array<int>, pBase: nat, dst: array<int>, base: nat,
                      add: int32, shift: nat, limit: int)
    requires h > 0 && |v| == 2 * h && Small(v) && 0 <= add <= 0x100_0000
    requires pBase + 4 * h - 1 <= pred.Length && base + 4 * h - 1 <= dst.Length
    requires pred == dst ==> pBase == base
    modifies dst
    ensures Replaced(dst[..], old(dst[..]), base, SampleRow(v, old(pred[..]), pBase, add, shift, limit))
  {
    ghost var w, was := SampleRow(v, pred[..], pBase, add, shift, limit), dst[..];
    ghost var p := pred[..];
    for k := 0 to h
      invariant Partial(dst[..], was, base, h, k, w)
      invariant pred != dst ==> pred[..] == p
    {
      if pred == dst {
        PartialUnwritten(dst[..], was, base, h, k, w);
      }
      assert pred[pBase + 2 * k] == p[pBase + 2 * k];
      assert pred[pBase + 2 * (k + h)] == p[pBase + 2 * (k + h)];
      assert w[k] == Sample(v[k], p[pBase + 2 * k], add, shift, limit);
      assert w[k + h] == Sample(v[k + h], p[pBase + 2 * (k + h)], add, shift, limit);
      PutPair(v, h, k, pred, pBase, dst, base, add, shift, limit, was, w);
    }
    PartialDone(dst[..], was, base, h, w);
  }
}
