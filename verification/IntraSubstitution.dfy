/** Reference sample substitution for intra prediction of interleaved chroma: the three
    block-size-specific fills against the one-sample-at-a-time process of section 8.4.4.2.2
    of H.265. Pairs are numbered from the bottom-left neighbour (0) up to the top-left one
    (2 * nt) and on to the top-right one (4 * nt). */
module IntraSubstitution {
  import opened Common

  /** Both components of one chroma position, copied as one 16-bit (or 32-bit) unit. */
  datatype UV = UV(u: int, v: int)

  // The process of the standard.

  predicate Any(a: seq<bool>) {
    exists i :: 0 <= i < |a| && a[i]
  }

  /** The first available position at or after `from`. */
  function First(a: seq<bool>, from: nat): (f: nat)
    requires from <= |a| && Any(a[from..])
    ensures from <= f < |a| && a[f] && forall i | from <= i < f :: !a[i]
    decreases |a| - from
  {
    if from < |a| && a[from] then from
    else
      assert Any(a[from + 1..]) by {
        var i :| 0 <= i < |a[from..]| && a[from..][i];
        assert a[from + 1..][i - 1];
      }
      First(a, from + 1)
  }

  /** Position i after substitution: the first position takes the first available sample, and
      every later unavailable position copies the one before it. */
  function Substituted(a: seq<bool>, p: seq<UV>, i: nat): UV
    requires |a| == |p| && Any(a) && i < |a|
  {
    if i == 0 then (assert a[0..] == a; p[First(a, 0)])
    else if a[i] then p[i] else Substituted(a, p, i - 1)
  }

  /** Unavailable neighbours have no influence. */
  lemma {:induction false} SubstitutedIndependent(a: seq<bool>, p: seq<UV>, q: seq<UV>, i: nat)
    requires |a| == |p| == |q| && Any(a) && i < |a|
    requires forall k | 0 <= k < |a| && a[k] :: p[k] == q[k]
    ensures Substituted(a, p, i) == Substituted(a, q, i)
  {
    assert a[0..] == a;
    if i > 0 { SubstitutedIndependent(a, p, q, i - 1); }
  }

  /** Everything before the first available position takes its value. */
  lemma {:induction false} LeadingRun(a: seq<bool>, p: seq<UV>, f: nat, i: nat)
    requires |a| == |p| && i <= f < |a| && a[f] && forall k | 0 <= k < f :: !a[k]
    ensures Any(a) && Substituted(a, p, i) == p[f]
  {
    assert a[0..] == a;
    if i > 0 { LeadingRun(a, p, f, i - 1); }
  }

  /** A run of unavailable positions repeats the value before it. */
  lemma {:induction false} RepeatedRun(a: seq<bool>, p: seq<UV>, start: nat, i: nat)
    requires |a| == |p| && Any(a) && 0 < start <= i + 1 <= |a| && forall k | start <= k <= i :: !a[k]
    ensures Substituted(a, p, i) == Substituted(a, p, start - 1)
  {
    if start <= i { RepeatedRun(a, p, start, i - 1); }
  }

  // Availability in groups.

  /** Block sizes with their unit: pairs per consulted flag. nt / unit is 1, 2 or 4. */
  predicate IsBlock(nt: nat, unit: nat) {
    (unit == 4 || unit == 8) && (nt == unit || nt == 2 * unit || nt == 4 * unit)
  }

  /** Flag index for pair i, the top-left pair apart. */
  function GroupOf(i: nat, nt: nat, unit: nat): nat
    requires IsBlock(nt, unit) && i <= 4 * nt
  {
    if i < 2 * nt then i / unit else (i - 1) / unit
  }

  lemma GroupInRange(i: nat, nt: nat, unit: nat)
    requires IsBlock(nt, unit) && i <= 4 * nt && i != 2 * nt
    ensures GroupOf(i, nt, unit) < Flags(nt, unit)
  {
    if unit == 4 {} else {}
  }

  /** Number of flags consulted besides the top-left one. */
  function Flags(nt: nat, unit: nat): nat
    requires IsBlock(nt, unit)
  {
    if nt == unit then 4 else if nt == 2 * unit then 8 else 16
  }

  /** Availability of every pair, from one flag per unit (bottom-left upwards, then top
      rightwards) and one for the top-left pair. */
  function Availability(bits: seq<bool>, tl: bool, nt: nat, unit: nat): (a: seq<bool>)
    requires IsBlock(nt, unit) && |bits| == Flags(nt, unit)
    ensures |a| == 4 * nt + 1
  {
    seq(4 * nt + 1, i requires 0 <= i < 4 * nt + 1 =>
      if i == 2 * nt then tl else (GroupInRange(i, nt, unit); bits[GroupOf(i, nt, unit)]))
  }

  /** id is the start of a group, the top-left pair, or one past the end. */
  predicate Aligned(id: nat, nt: nat, unit: nat)
    requires IsBlock(nt, unit)
  {
    id <= 4 * nt + 1 && if id <= 2 * nt then id % unit == 0 else (id - 1) % unit == 0
  }

  /** The pairs from an aligned position on, one unit of them, share a flag, and the flag
      index is the position shifted right. */
  lemma GroupRun(id: nat, nt: nat, unit: nat, i: nat)
    requires IsBlock(nt, unit) && Aligned(id, nt, unit) && id <= 4 * nt && id != 2 * nt && id <= i < id + unit
    ensures i <= 4 * nt && i != 2 * nt && GroupOf(i, nt, unit) == GroupOf(id, nt, unit) == id / unit
    ensures Aligned(id + unit, nt, unit)
  {
    if unit == 4 { GroupRun4(id, nt, i); } else { GroupRun8(id, nt, i); }
  }

  lemma GroupRun4(id: nat, nt: nat, i: nat)
    requires (nt == 4 || nt == 8 || nt == 16) && Aligned(id, nt, 4) && id <= 4 * nt && id != 2 * nt && id <= i < id + 4
    ensures i <= 4 * nt && i != 2 * nt && GroupOf(i, nt, 4) == GroupOf(id, nt, 4) == id / 4 && Aligned(id + 4, nt, 4)
  {
  }

  lemma GroupRun8(id: nat, nt: nat, i: nat)
    requires (nt == 8 || nt == 16 || nt == 32) && Aligned(id, nt, 8) && id <= 4 * nt && id != 2 * nt && id <= i < id + 8
    ensures i <= 4 * nt && i != 2 * nt && GroupOf(i, nt, 8) == GroupOf(id, nt, 8) == id / 8 && Aligned(id + 8, nt, 8)
  {
  }

  // The fills.

  /** The first k pairs are final, and every available pair from k on still holds its sample. */
  ghost predicate Prefix(d: seq<UV>, a: seq<bool>, p: seq<UV>, k: nat)
    requires |a| == |p| && Any(a)
  {
    && |d| >= |a| && k <= |a|
    && (forall i | 0 <= i < k :: d[i] == Substituted(a, p, i))
    && (forall i | k <= i < |a| && a[i] :: d[i] == p[i])
  }

  /** Every available pair holds its sample. */
  ghost predicate Loaded(d: seq<UV>, a: seq<bool>, p: seq<UV>) {
    |a| == |p| <= |d| && forall i | 0 <= i < |a| && a[i] :: d[i] == p[i]
  }

  /** Nothing has changed from position n on. */
  ghost predicate KeptFrom(d: seq<UV>, was: seq<UV>, n: nat) {
    |d| == |was| && forall i | n <= i < |d| :: d[i] == was[i]
  }

  /** One flag holds for a whole stretch. */
  ghost predicate Shared(a: seq<bool>, from: nat, count: nat, flag: bool) {
    from + count <= |a| && forall i | from <= i < from + count :: a[i] == flag
  }

  /** ihevc_memset_16bit on pairs. */
  method Fill(dst: array<UV>, from: nat, count: nat, value: UV)
    requires from + count <= dst.Length
    modifies dst
    ensures forall i | 0 <= i < dst.Length :: dst[i] == if from <= i < from + count then value else old(dst[i])
  {
    for k := 0 to count
      invariant forall i | 0 <= i < dst.Length :: dst[i] == if from <= i < from + k then value else old(dst[i])
    {
      dst[from + k] := value;
    }
  }

  /** Reverse substitution: everything below the first available pair takes its value. */
  method Reverse(dst: array<UV>, first: nat, ghost a: seq<bool>, ghost p: seq<UV>)
    requires Loaded(dst[..], a, p) && first < |a| && a[first] && Shared(a, 0, first, false)
    modifies dst
    ensures Any(a) && Prefix(dst[..], a, p, first + 1) && KeptFrom(dst[..], old(dst[..]), |a|)
  {
    Fill(dst, 0, first, dst[first]);
    forall i | 0 <= i <= first
      ensures Any(a) && dst[i] == Substituted(a, p, i)
    {
      LeadingRun(a, p, first, i);
    }
  }

  /** Forward substitution of one group: copy the pair before it if it is unavailable. */
  method Forward(dst: array<UV>, start: nat, count: nat, flag: bool, ghost a: seq<bool>, ghost p: seq<UV>)
    requires |a| == |p| <= dst.Length && Any(a) && 0 < start && start + count <= |a|
    requires Prefix(dst[..], a, p, start) && Shared(a, start, count, flag)
    modifies dst
    ensures Prefix(dst[..], a, p, start + count) && KeptFrom(dst[..], old(dst[..]), |a|)
  {
    if !flag {
      Fill(dst, start, count, dst[start - 1]);
    }
    forall i | start <= i < start + count
      ensures dst[i] == Substituted(a, p, i)
    {
      if !flag { RepeatedRun(a, p, start, i); }
    }
  }

  lemma PrefixShorter(d: seq<UV>, a: seq<bool>, p: seq<UV>, k: nat, j: nat)
    requires |a| == |p| && Any(a) && Prefix(d, a, p, k) && j <= k
    ensures Prefix(d, a, p, j)
  {
    assert a[0..] == a;
  }

  lemma AvailableRun(d: seq<UV>, a: seq<bool>, p: seq<UV>, k: nat)
    requires Loaded(d, a, p) && k > 0 && Shared(a, 0, k, true)
    ensures Any(a) && Prefix(d, a, p, k)
  {
    assert a[0..] == a && a[0];
  }

  /** Availability block by block. */
  ghost predicate BlockByBlock(a: seq<bool>, nt: nat, botLeft: bool, left: bool, tpLeft: bool, top: bool,
                               tpRight: bool)
  {
    && |a| == 4 * nt + 1
    && Shared(a, 0, nt, botLeft) && Shared(a, nt, nt, left) && Shared(a, 2 * nt, 1, tpLeft)
    && Shared(a, 2 * nt + 1, nt, top) && Shared(a, 3 * nt + 1, nt, tpRight)
  }

  lemma BlockAvailability(bits: seq<bool>, tl: bool, nt: nat)
    requires (nt == 4 || nt == 8) && |bits| == 4
    ensures BlockByBlock(Availability(bits, tl, nt, nt), nt, bits[0], bits[1], tl, bits[2], bits[3])
  {
    if nt == 4 {} else {}
  }

  /** The first available block is found and everything before it takes its first value. */
  method ReverseBlocks(dst: array<UV>, nt: nat, left: bool, tpLeft: bool, top: bool, tpRight: bool,
                       ghost a: seq<bool>, ghost p: seq<UV>)
    requires nt > 0 && (left || tpLeft || top || tpRight)
    requires BlockByBlock(a, nt, false, left, tpLeft, top, tpRight) && Loaded(dst[..], a, p)
    modifies dst
    ensures Any(a) && Prefix(dst[..], a, p, nt) && KeptFrom(dst[..], old(dst[..]), |a|)
  {
    var nbrFlag := [false, left, tpLeft, top, tpRight];
    var next := 1;
    while !nbrFlag[next]
      invariant 1 <= next <= 4
      invariant (next > 1 ==> !left) && (next > 2 ==> !tpLeft) && (next > 3 ==> !top)
      decreases 5 - next
    {
      next := next + 1;
    }
    var idx := if next <= 2 then nt * next else nt * (next - 1) + 1;
    assert idx == if next == 1 then nt else if next == 2 then 2 * nt else if next == 3 then 2 * nt + 1 else 3 * nt + 1;
    Reverse(dst, idx, a, p);
    PrefixShorter(dst[..], a, p, idx + 1, nt);
  }

  /** nt == 4, and nt == 8 in 4:4:4: one flag per neighbouring block. */
  method SubstituteBlocks(dst: array<UV>, nt: nat, botLeft: bool, left: bool, tpLeft: bool, top: bool, tpRight: bool,
                          ghost p: seq<UV>)
    requires (nt == 4 || nt == 8) && |p| == 4 * nt + 1 <= dst.Length
    requires botLeft || left || tpLeft || top || tpRight
    requires Loaded(dst[..], Availability([botLeft, left, top, tpRight], tpLeft, nt, nt), p)
    modifies dst
    ensures var a := Availability([botLeft, left, top, tpRight], tpLeft, nt, nt);
      Any(a) && Prefix(dst[..], a, p, 4 * nt + 1)
    ensures KeptFrom(dst[..], old(dst[..]), 4 * nt + 1)
  {
    ghost var a := Availability([botLeft, left, top, tpRight], tpLeft, nt, nt);
    BlockAvailability([botLeft, left, top, tpRight], tpLeft, nt);
    if botLeft {
      AvailableRun(dst[..], a, p, nt);
    } else {
      ReverseBlocks(dst, nt, left, tpLeft, top, tpRight, a, p);
    }
    Forward(dst, nt, nt, left, a, p);
    Forward(dst, 2 * nt, 1, tpLeft, a, p);
    Forward(dst, 2 * nt + 1, nt, top, a, p);
    Forward(dst, 3 * nt + 1, nt, tpRight, a, p);
  }

  /** Index of the lowest set bit at or after `from`, or the number of bits. */
  function LowestSet(b: seq<bool>, from: nat): (z: nat)
    requires from <= |b|
    ensures from <= z <= |b| && (z < |b| ==> b[z]) && forall k | from <= k < z :: !b[k]
    decreases |b| - from
  {
    if from == |b| || b[from] then from else LowestSet(b, from + 1)
  }

  /** look_up_trailing_zeros: 8 when no bit is set. */
  function TrailingZeros(b: seq<bool>): nat {
    var z := LowestSet(b, 0);
    if z == |b| then 8 else z
  }

  /** Id of the first available pair for the middle block sizes: two flags per neighbour. */
  function FirstIdMiddle(bits: seq<bool>, tl: bool, unit: nat): nat
    requires |bits| == 8
  {
    var id := TrailingZeros(bits[..4]) * unit;
    var id' := if id == 8 * unit then 4 * unit else id;
    if id' == 4 * unit && !tl then id' + 1 + TrailingZeros(bits[4..]) * unit else id'
  }

  /** The same for the large block sizes: four flags per neighbour. */
  function FirstIdLarge(bits: seq<bool>, tl: bool, unit: nat): nat
    requires |bits| == 16
  {
    var id := TrailingZeros(bits[..8]) * unit;
    if id == 8 * unit && !tl then id + 1 + TrailingZeros(bits[8..]) * unit else id
  }

  function FirstId(bits: seq<bool>, tl: bool, unit: nat): nat
    requires |bits| == 8 || |bits| == 16
  {
    if |bits| == 8 then FirstIdMiddle(bits, tl, unit) else FirstIdLarge(bits, tl, unit)
  }

  /** id is the first available pair, and the start of a group. */
  ghost predicate IsFirst(id: nat, a: seq<bool>, nt: nat, unit: nat)
    requires IsBlock(nt, unit)
  {
    id < |a| && a[id] && Shared(a, 0, id, false) && Aligned(id, nt, unit)
  }

  /** The computed id is the first available pair, exactly when a consulted flag is set;
      otherwise it lies past the last pair. */
  lemma FirstIdFirst(bits: seq<bool>, tl: bool, nt: nat, unit: nat)
    requires IsBlock(nt, unit) && nt != unit && |bits| == Flags(nt, unit)
    ensures var a, id := Availability(bits, tl, nt, unit), FirstId(bits, tl, unit);
      if tl || Any(bits) then IsFirst(id, a, nt, unit) else id > 4 * nt
  {
    var h := |bits| / 2;
    var low, high := LowestSet(bits[..h], 0), LowestSet(bits[h..], 0);
    FirstIdValue(bits, tl, nt, unit, low, high);
    if low < h {
      assert bits[low];
      FirstLow(bits, tl, nt, unit, low);
    } else if tl {
      FirstTopLeft(bits, nt, unit);
    } else if high < h {
      FirstInHigh(bits, nt, unit, high);
    } else {
      NoFlag(bits, h);
    }
  }

  /** The id as computed: in the lower half of the flags, the top-left pair, in the upper half,
      or past the end. */
  lemma FirstIdValue(bits: seq<bool>, tl: bool, nt: nat, unit: nat, low: nat, high: nat)
    requires IsBlock(nt, unit) && nt != unit && |bits| == Flags(nt, unit)
    requires low == LowestSet(bits[..|bits| / 2], 0) && high == LowestSet(bits[|bits| / 2..], 0)
    ensures var h, id := |bits| / 2, FirstId(bits, tl, unit);
      if low < h then id == low * unit
      else if tl then id == 2 * nt
      else if high < h then id == 2 * nt + 1 + high * unit
      else id > 4 * nt
  {
    if unit == 4 {} else {}
  }

  lemma FirstInHigh(bits: seq<bool>, nt: nat, unit: nat, high: nat)
    requires IsBlock(nt, unit) && nt != unit && |bits| == Flags(nt, unit)
    requires LowestSet(bits[..|bits| / 2], 0) == |bits| / 2
    requires high == LowestSet(bits[|bits| / 2..], 0) < |bits| / 2
    ensures Any(bits) && IsFirst(2 * nt + 1 + high * unit, Availability(bits, false, nt, unit), nt, unit)
  {
    var h := |bits| / 2;
    assert bits[h + high];
    forall k | 0 <= k < h + high
      ensures !bits[k]
    {
      assert if k < h then !bits[..h][k] else !bits[h..][k - h];
    }
    FirstHigh(bits, nt, unit, high);
  }

  lemma NoFlag(bits: seq<bool>, h: nat)
    requires h <= |bits| && LowestSet(bits[..h], 0) == h && LowestSet(bits[h..], 0) == |bits| - h
    ensures !Any(bits)
  {
    forall k | 0 <= k < |bits|
      ensures !bits[k]
    {
      assert if k < h then !bits[..h][k] else !bits[h..][k - h];
    }
  }

  lemma FirstLow(bits: seq<bool>, tl: bool, nt: nat, unit: nat, g: nat)
    requires IsBlock(nt, unit) && nt != unit && |bits| == Flags(nt, unit) && g < |bits| / 2
    requires bits[g] && forall k | 0 <= k < g :: !bits[k]
    ensures IsFirst(g * unit, Availability(bits, tl, nt, unit), nt, unit)
  {
    var a, id := Availability(bits, tl, nt, unit), g * unit;
    if unit == 4 { assert id == 4 * g; } else { assert id == 8 * g; }
    forall k | 0 <= k < id
      ensures !a[k]
    {
      assert GroupOf(k, nt, unit) < g;
    }
  }

  lemma FirstTopLeft(bits: seq<bool>, nt: nat, unit: nat)
    requires IsBlock(nt, unit) && nt != unit && |bits| == Flags(nt, unit)
    requires forall k | 0 <= k < |bits| / 2 :: !bits[k]
    ensures IsFirst(2 * nt, Availability(bits, true, nt, unit), nt, unit)
  {
    var a := Availability(bits, true, nt, unit);
    forall k | 0 <= k < 2 * nt
      ensures !a[k]
    {
      if unit == 4 { assert k / 4 < |bits| / 2; } else { assert k / 8 < |bits| / 2; }
    }
  }

  lemma FirstHigh(bits: seq<bool>, nt: nat, unit: nat, g: nat)
    requires IsBlock(nt, unit) && nt != unit && |bits| == Flags(nt, unit) && g < |bits| / 2
    requires bits[|bits| / 2 + g] && forall k | 0 <= k < |bits| / 2 + g :: !bits[k]
    ensures IsFirst(2 * nt + 1 + g * unit, Availability(bits, false, nt, unit), nt, unit)
  {
    var a, id := Availability(bits, false, nt, unit), 2 * nt + 1 + g * unit;
    if unit == 4 { assert id == 2 * nt + 1 + 4 * g; } else { assert id == 2 * nt + 1 + 8 * g; }
    assert GroupOf(id, nt, unit) == |bits| / 2 + g;
    forall k | 0 <= k < id
      ensures !a[k]
    {
      assert k != 2 * nt ==> GroupOf(k, nt, unit) < |bits| / 2 + g;
    }
  }

  /** The flag a loop iteration consults is that of the whole group. */
  lemma GroupFlag(bits: seq<bool>, tl: bool, nt: nat, unit: nat, id: nat)
    requires IsBlock(nt, unit) && nt != unit && |bits| == Flags(nt, unit) && Aligned(id, nt, unit) && id <= 4 * nt
    ensures Aligned(id + if id == 2 * nt then 1 else unit, nt, unit)
    ensures id != 2 * nt ==> id / unit < |bits|
    ensures var a := Availability(bits, tl, nt, unit);
      if id == 2 * nt then a[id] == tl
      else Shared(a, id, unit, bits[id / unit])
  {
    if id != 2 * nt {
      GroupRun(id, nt, unit, id);
      GroupRun(id, nt, unit, id + unit - 1);
      GroupInRange(id, nt, unit);
      var a := Availability(bits, tl, nt, unit);
      forall i | id <= i < id + unit
        ensures a[i] == bits[id / unit]
      {
        GroupRun(id, nt, unit, i);
      }
    }
  }

  /** Forward substitution where the very first group is already complete. */
  method ForwardFrom(dst: array<UV>, start: nat, count: nat, flag: bool, ghost a: seq<bool>, ghost p: seq<UV>)
    requires |a| == |p| <= dst.Length && Any(a) && start + count <= |a| && (start == 0 ==> flag && count > 0)
    requires Prefix(dst[..], a, p, start) && Shared(a, start, count, flag)
    modifies dst
    ensures Prefix(dst[..], a, p, start + count) && KeptFrom(dst[..], old(dst[..]), |a|)
  {
    if start == 0 {
      AvailableRun(dst[..], a, p, count);
    } else {
      Forward(dst, start, count, flag, a, p);
    }
  }

  /** One round of the loop over groups. */
  method OneGroup(dst: array<UV>, nt: nat, unit: nat, bits: seq<bool>, tl: bool, id: nat,
                  ghost a: seq<bool>, ghost p: seq<UV>) returns (next: nat)
    requires IsBlock(nt, unit) && nt != unit && |bits| == Flags(nt, unit) && Aligned(id, nt, unit) && id <= 4 * nt
    requires a == Availability(bits, tl, nt, unit) && |a| == |p| <= dst.Length && Any(a) && (id == 0 ==> a[0])
    requires Prefix(dst[..], a, p, id)
    modifies dst
    ensures id < next && Aligned(next, nt, unit) && Prefix(dst[..], a, p, next)
    ensures KeptFrom(dst[..], old(dst[..]), |a|)
  {
    GroupFlag(bits, tl, nt, unit, id);
    if id == 2 * nt {
      ForwardFrom(dst, id, 1, tl, a, p);
      next := id + 1;
    } else {
      ForwardFrom(dst, id, unit, bits[id / unit], a, p);
      next := id + unit;
    }
  }

  /** nt == 8 and 16 (16 and 32 in 4:4:4): substitution group by group. */
  method SubstituteGroups(dst: array<UV>, nt: nat, unit: nat, bits: seq<bool>, tl: bool, ghost p: seq<UV>)
    requires IsBlock(nt, unit) && nt != unit && |bits| == Flags(nt, unit) && |p| == 4 * nt + 1 <= dst.Length
    requires tl || Any(bits)
    requires Loaded(dst[..], Availability(bits, tl, nt, unit), p)
    modifies dst
    ensures var a := Availability(bits, tl, nt, unit); Any(a) && Prefix(dst[..], a, p, 4 * nt + 1)
    ensures KeptFrom(dst[..], old(dst[..]), 4 * nt + 1)
  {
    ghost var a := Availability(bits, tl, nt, unit);
    FirstIdFirst(bits, tl, nt, unit);
    var id := FirstId(bits, tl, unit);
    Reverse(dst, id, a, p);
    PrefixShorter(dst[..], a, p, id + 1, id);
    while id < 4 * nt + 1
      invariant Aligned(id, nt, unit) && Any(a) && Prefix(dst[..], a, p, id) && (id == 0 ==> a[0])
      invariant KeptFrom(dst[..], old(dst[..]), 4 * nt + 1)
      decreases 4 * nt + 1 - id
    {
      id := OneGroup(dst, nt, unit, bits, tl, id, a, p);
    }
  }

  // The whole function.

  /** Sizes the function substitutes for; 32 occurs in 4:4:4 only. */
  predicate Supported(nt: nat, yuv444: bool) {
    nt == 4 || nt == 8 || nt == 16 || (nt == 32 && yuv444)
  }

  function Unit(nt: nat, yuv444: bool): nat {
    if yuv444 && nt > 4 then 8 else 4
  }

  /** The flags that a block size consults, besides the top-left one. Bits 0-3 of the flag word
      are for the bottom-left area, 4-7 left, 8-11 top, 12-15 top-right, 16 top-left. */
  function Consulted(nt: nat, yuv444: bool, f: FlagWord): (bits: seq<bool>)
    requires Supported(nt, yuv444)
    ensures IsBlock(nt, Unit(nt, yuv444)) && |bits| == Flags(nt, Unit(nt, yuv444))
  {
    if nt == 4 || (nt == 8 && yuv444) then [f[3], f[7], f[8], f[12]]
    else if nt == 8 || (nt == 16 && yuv444) then [f[2], f[3], f[6], f[7], f[8], f[9], f[12], f[13]]
    else f[..16]
  }

  function Available(nt: nat, yuv444: bool, f: FlagWord): (a: seq<bool>)
    requires Supported(nt, yuv444)
    ensures |a| == 4 * nt + 1
  {
    Availability(Consulted(nt, yuv444, f), f[16], nt, Unit(nt, yuv444))
  }

  /** The bit of the flag word that stands for pair i: bit 8 and on for the top row, 12 and on for
      the top-right, 7 and down for the left column, 3 and down for the bottom-left, 16 for the
      corner; `unit` pairs to a bit. */
  function BitOf(nt: nat, yuv444: bool, i: nat): (b: nat)
    requires Supported(nt, yuv444) && i <= 4 * nt
    ensures b <= 16
  {
    var unit := if yuv444 && nt > 4 then 8 else 4;
    if i == 2 * nt then 16
    else if i > 2 * nt then
      var x := i - 2 * nt - 1;
      if x < nt then 8 + x / unit else 12 + (x - nt) / unit
    else
      var y := 2 * nt - 1 - i;
      if y < nt then 7 - y / unit else 3 - (y - nt) / unit
  }

  lemma BitOfGroup4(nt: nat, yuv444: bool, f: FlagWord, i: nat)
    requires Supported(nt, yuv444) && Unit(nt, yuv444) == 4 && i <= 4 * nt && i != 2 * nt
    ensures GroupOf(i, nt, 4) < Flags(nt, 4)
    ensures Consulted(nt, yuv444, f)[GroupOf(i, nt, 4)] == f[BitOf(nt, yuv444, i)]
  {
    GroupInRange(i, nt, 4);
    var g := GroupOf(i, nt, 4);
    if nt == 4 {
      if g == 0 {} else if g == 1 {} else if g == 2 {} else {}
    } else if nt == 8 {
      if g == 0 {} else if g == 1 {} else if g == 2 {} else if g == 3 {}
      else if g == 4 {} else if g == 5 {} else if g == 6 {} else {}
    } else {
      assert BitOf(nt, yuv444, i) == g;
    }
  }

  lemma BitOfGroup8(nt: nat, yuv444: bool, f: FlagWord, i: nat)
    requires Supported(nt, yuv444) && Unit(nt, yuv444) == 8 && i <= 4 * nt && i != 2 * nt
    ensures GroupOf(i, nt, 8) < Flags(nt, 8)
    ensures Consulted(nt, yuv444, f)[GroupOf(i, nt, 8)] == f[BitOf(nt, yuv444, i)]
  {
    GroupInRange(i, nt, 8);
    var g := GroupOf(i, nt, 8);
    if nt == 8 {
      if g == 0 {} else if g == 1 {} else if g == 2 {} else {}
    } else if nt == 16 {
      if g == 0 {} else if g == 1 {} else if g == 2 {} else if g == 3 {}
      else if g == 4 {} else if g == 5 {} else if g == 6 {} else {}
    } else {
      assert BitOf(nt, yuv444, i) == g;
    }
  }

  /** A pair is available if and only if its bit of the flag word is set. */
  lemma AvailableBit(nt: nat, yuv444: bool, f: FlagWord, i: nat)
    requires Supported(nt, yuv444) && i <= 4 * nt
    ensures Available(nt, yuv444, f)[i] == f[BitOf(nt, yuv444, i)]
  {
    if i != 2 * nt {
      if Unit(nt, yuv444) == 4 { BitOfGroup4(nt, yuv444, f, i); } else { BitOfGroup8(nt, yuv444, f, i); }
    }
  }

  /** Some flag among f[from .. from + 4] is set: part of that neighbouring area is available. */
  predicate Area(f: FlagWord, from: nat)
    requires from <= 28
  {
    f[from] || f[from + 1] || f[from + 2] || f[from + 3]
  }

  /** Pair i belongs to an area of which some part is available. */
  predicate Flagged(nt: nat, f: FlagWord, i: nat)
    requires i <= 4 * nt
  {
    if i < nt then Area(f, 0) else if i < 2 * nt then Area(f, 4) else if i == 2 * nt then f[16]
    else if i <= 3 * nt then Area(f, 8) else Area(f, 12)
  }

  /** The neighbouring sample at pair i, where the picture holds it. */
  function Neighbour(topLeft: UV, top: seq<UV>, left: seq<UV>, strd: nat, nt: nat, i: nat): UV
    requires i <= 4 * nt
  {
    if i < 2 * nt then (var k := At(0, strd, 2 * nt - 1 - i); if k < |left| then left[k] else UV(0, 0))
    else if i == 2 * nt then topLeft
    else if i - 2 * nt - 1 < |top| then top[i - 2 * nt - 1] else UV(0, 0)
  }

  function Neighbours(topLeft: UV, top: seq<UV>, left: seq<UV>, strd: nat, nt: nat): (p: seq<UV>)
    ensures |p| == 4 * nt + 1
  {
    seq(4 * nt + 1, i requires 0 <= i < 4 * nt + 1 => Neighbour(topLeft, top, left, strd, nt, i))
  }

  /** The neighbouring areas that are flagged can be read. */
  predicate Readable(f: FlagWord, topLen: nat, leftLen: nat, strd: nat, nt: nat) {
    nt > 0 && (Area(f, 4) ==> At(0, strd, nt - 1) < leftLen) && (Area(f, 0) ==> At(0, strd, 2 * nt - 1) < leftLen) &&
    (Area(f, 8) ==> nt <= topLen) && (Area(f, 12) ==> 2 * nt <= topLen)
  }

  lemma AvailableIsFlagged(nt: nat, yuv444: bool, f: FlagWord, i: nat)
    requires Supported(nt, yuv444) && i <= 4 * nt && Available(nt, yuv444, f)[i]
    ensures Flagged(nt, f, i)
  {
    var unit := Unit(nt, yuv444);
    if i != 2 * nt {
      GroupInRange(i, nt, unit);
      if nt == unit {
        BlockAvailability(Consulted(nt, yuv444, f), f[16], nt);
      } else if unit == 4 {
        assert GroupOf(i, nt, 4) == if i < 2 * nt then i / 4 else (i - 1) / 4;
      } else {
        assert GroupOf(i, nt, 8) == if i < 2 * nt then i / 8 else (i - 1) / 8;
      }
    }
  }

  predicate Copied(value: UV, left: seq<UV>, strd: nat, row: nat) {
    At(0, strd, row) < |left| && value == left[At(0, strd, row)]
  }

  /** Copies `count` pairs of the left column, from row j on, downwards from the pair below hi. */
  method CopyLeft(dst: array<UV>, hi: nat, left: array<UV>, strd: nat, j: nat, count: nat)
    requires dst != left && count <= hi <= dst.Length && (count > 0 ==> At(0, strd, j + count - 1) < left.Length)
    modifies dst
    ensures forall i | 0 <= i < dst.Length && !(hi - count <= i < hi) :: dst[i] == old(dst[i])
    ensures forall i | hi - count <= i < hi :: Copied(dst[i], left[..], strd, j + (hi - 1 - i))
  {
    for k := 0 to count
      invariant forall i | 0 <= i < dst.Length && !(hi - k <= i < hi) :: dst[i] == old(dst[i])
      invariant forall i | hi - k <= i < hi :: Copied(dst[i], left[..], strd, j + (hi - 1 - i))
    {
      AtMono(0, strd, j + k, j + count - 1);
      dst[hi - 1 - k] := left[At(0, strd, j + k)];
      assert Copied(dst[hi - 1 - k], left[..], strd, j + k);
    }
  }

  method CopyTop(dst: array<UV>, from: nat, top: array<UV>, j: nat, count: nat)
    requires dst != top && from + count <= dst.Length && j + count <= top.Length
    modifies dst
    ensures forall i | 0 <= i < dst.Length ::
      dst[i] == if from <= i < from + count then top[j + (i - from)] else old(dst[i])
  {
    for k := 0 to count
      invariant forall i | 0 <= i < dst.Length ::
        dst[i] == if from <= i < from + k then top[j + (i - from)] else old(dst[i])
    {
      dst[from + k] := top[j + k];
    }
  }

  /** Fills every flagged area with its neighbours, available or not. */
  method Load(topLeft: UV, top: array<UV>, left: array<UV>, strd: nat, nt: nat, f: FlagWord, dst: array<UV>)
    requires dst != top && dst != left && 4 * nt + 1 <= dst.Length && Readable(f, top.Length, left.Length, strd, nt)
    modifies dst
    ensures forall i | 0 <= i < 4 * nt + 1 && Flagged(nt, f, i) ::
      dst[i] == Neighbour(topLeft, top[..], left[..], strd, nt, i)
    ensures KeptFrom(dst[..], old(dst[..]), 4 * nt + 1)
  {
    if f[16] {
      dst[2 * nt] := topLeft;
    }
    if Area(f, 4) {
      CopyLeft(dst, 2 * nt, left, strd, 0, nt);
    }
    if Area(f, 0) {
      CopyLeft(dst, nt, left, strd, nt, nt);
    }
    if Area(f, 8) {
      CopyTop(dst, 2 * nt + 1, top, 0, nt);
    }
    if Area(f, 12) {
      CopyTop(dst, 3 * nt + 1, top, nt, nt);
    }
  }

  /** Every position is what the process makes it, from the samples that are available. */
  ghost predicate Complete(d: seq<UV>, nt: nat, yuv444: bool, f: FlagWord, p: seq<UV>)
    requires Supported(nt, yuv444) && |p| == 4 * nt + 1
  {
    var a := Available(nt, yuv444, f);
    |d| >= |p| && Any(a) && forall i | 0 <= i < |p| :: d[i] == Substituted(a, p, i)
  }

  /** The fill for the block size. */
  method Substitute(dst: array<UV>, nt: nat, f: FlagWord, yuv444: bool, ghost p: seq<UV>)
    requires Supported(nt, yuv444) && |p| == 4 * nt + 1 <= dst.Length && (f[16] || Any(Consulted(nt, yuv444, f)))
    requires Loaded(dst[..], Available(nt, yuv444, f), p)
    modifies dst
    ensures Complete(dst[..], nt, yuv444, f, p) && KeptFrom(dst[..], old(dst[..]), 4 * nt + 1)
  {
    if nt == 4 || (nt == 8 && yuv444) {
      SubstituteBlocks(dst, nt, f[3], f[7], f[16], f[8], f[12], p);
    } else {
      var subSample := if yuv444 then 2 else 1;
      var bits := if nt == 8 * subSample then f[2..4] + f[6..8] + f[8..10] + f[12..14] else f[..16];
      assert bits == Consulted(nt, yuv444, f);
      SubstituteGroups(dst, nt, 4 * subSample, bits, f[16], p);
    }
  }

  lemma LoadedWhereAvailable(d: seq<UV>, nt: nat, yuv444: bool, f: FlagWord, p: seq<UV>)
    requires Supported(nt, yuv444) && |p| == 4 * nt + 1 <= |d|
    requires forall i | 0 <= i < |p| && Flagged(nt, f, i) :: d[i] == p[i]
    ensures Loaded(d, Available(nt, yuv444, f), p)
  {
    forall i | 0 <= i < |p| && Available(nt, yuv444, f)[i]
      ensures d[i] == p[i]
    {
      AvailableIsFlagged(nt, yuv444, f, i);
    }
  }

  /** ihevc_intra_pred_chroma_ref_substitution and, with the bit depth of its samples,
      ihevc_hbd_intra_pred_chroma_ref_substitution. */
  method RefSubstitution(topLeft: UV, top: array<UV>, left: array<UV>, strd: nat, nt: nat, f: FlagWord,
                         dst: array<UV>, yuv444: bool, bitDepth: nat)
    requires Supported(nt, yuv444) && bitDepth > 0
    requires dst != top && dst != left && 4 * nt + 1 <= dst.Length && Readable(f, top.Length, left.Length, strd, nt)
    requires Any(f) ==> f[16] || Any(Consulted(nt, yuv444, f))
    modifies dst
    ensures !Any(f) ==> forall i | 0 <= i < 4 * nt + 1 :: dst[i] == UV(Pow2(bitDepth - 1), Pow2(bitDepth - 1))
    ensures Any(f) ==> Complete(dst[..], nt, yuv444, f, Neighbours(topLeft, top[..], left[..], strd, nt))
    ensures KeptFrom(dst[..], old(dst[..]), 4 * nt + 1)
  {
    if !Any(f) {
      var dc := Pow2(bitDepth - 1);
      Fill(dst, 0, 4 * nt + 1, UV(dc, dc));
    } else {
      ghost var p := Neighbours(topLeft, top[..], left[..], strd, nt);
      Load(topLeft, top, left, strd, nt, f, dst);
      LoadedWhereAvailable(dst[..], nt, yuv444, f, p);
      Substitute(dst, nt, f, yuv444, p);
    }
  }

  /** The search for a first available block or pair ends inside the array of five flags, or
      inside the reference. */
  predicate SearchEnds(nt: nat, yuv444: bool, f: FlagWord)
    requires Supported(nt, yuv444)
  {
    var bits := Consulted(nt, yuv444, f);
    if nt == 4 || (nt == 8 && yuv444) then
      bits[0] || LowestSet([bits[0], bits[1], f[16], bits[2], bits[3]], 1) < 5
    else
      FirstId(bits, f[16], Unit(nt, yuv444)) <= 4 * nt
  }

  /** A non-zero flag word without a consulted bit makes the search run past its end: what
      RefSubstitution requires is exactly what the code needs. */
  lemma SearchEndsExactly(nt: nat, yuv444: bool, f: FlagWord)
    requires Supported(nt, yuv444)
    ensures SearchEnds(nt, yuv444, f) <==> f[16] || Any(Consulted(nt, yuv444, f))
  {
    var bits, unit := Consulted(nt, yuv444, f), Unit(nt, yuv444);
    if nt == unit {
      var five := [bits[0], bits[1], f[16], bits[2], bits[3]];
      var z := LowestSet(five, 1);
      assert five[1] == bits[1] && five[2] == f[16] && five[3] == bits[2] && five[4] == bits[3];
      if z < 5 { assert f[16] || (exists i | 0 <= i < 4 :: bits[i] == five[z]); }
    } else {
      FirstIdFirst(bits, f[16], nt, unit);
    }
  }

  /** Bit 0 alone is a non-zero word that sets no bit a 4-point block consults: its search does
      not end. */
  lemma UnconsultedWord(yuv444: bool)
    ensures var f: FlagWord := seq(32, i => i == 0);
      Any(f) && !SearchEnds(4, yuv444, f)
  {
    var f: FlagWord := seq(32, i => i == 0);
    assert f[0] && !f[16];
    assert Consulted(4, yuv444, f) == [false, false, false, false];
    SearchEndsExactly(4, yuv444, f);
  }
}
