/** The decoded picture buffer: reference pictures in a fixed array of slots, linked from the
    most recent to the oldest. */
module DpbMgr {
  import opened Common
  import BufMgr

  const MAX_DPB_BUFS: nat := 64
  const UNUSED_FOR_REF: uint8 := 0
  const SHORT_TERM_REF: uint8 := 2
  const NO_SLOT: int := -1
  const MAX_DIFF: int := 0x7FFF_FFFF

  class PicBuf {
    var absPoc: int32
    var pocLsb: int32
    var usedAsRef: uint8
    var bufId: uint8

    constructor (poc: int32, lsb: int32)
      ensures absPoc == poc && pocLsb == lsb && usedAsRef == UNUSED_FOR_REF
    {
      absPoc, pocLsb, usedAsRef, bufId := poc, lsb, UNUSED_FOR_REF, 0;
    }
  }

  // The linked slots.

  predicate Distinct(s: seq<nat>) {
    forall i, j | 0 <= i < j < |s| :: s[i] != s[j]
  }

  function Elements(s: seq<nat>): set<int> { set k | k in s }

  lemma {:induction false} DistinctSize(s: seq<nat>)
    requires Distinct(s)
    ensures |Elements(s)| == |s|
  {
    if s != [] {
      var t := s[..|s| - 1];
      DistinctSize(t);
      assert Elements(s) == Elements(t) + {s[|s| - 1]};
    }
  }

  function Below(n: nat): (b: set<int>)
    ensures |b| == n && forall k :: k in b <==> 0 <= k < n
  {
    if n == 0 then {} else Below(n - 1) + {n - 1}
  }

  lemma SubsetSize(a: set<int>, b: set<int>)
    requires a <= b
    ensures |a| <= |b|
  {
    assert b == a + (b - a);
  }

  /** Distinct numbers below n: at most n, and all of them exactly when there are n. */
  lemma Pigeonhole(s: seq<nat>, n: nat)
    requires Distinct(s) && forall i | 0 <= i < |s| :: s[i] < n
    ensures |s| <= n
    ensures |s| == n <==> forall k | 0 <= k < n :: k in s
  {
    var used, all := Elements(s), Below(n);
    DistinctSize(s);
    SubsetSize(used, all);
    if k :| 0 <= k < n && k !in s {
      SubsetSize(used, all - {k});
    } else {
      SubsetSize(all, used);
    }
  }

  /** Slot i of the chain, or NO_SLOT past its end. */
  function From(order: seq<nat>, i: nat): int {
    if i < |order| then order[i] else NO_SLOT
  }

  predicate Occupied(pic: seq<PicBuf?>, order: seq<nat>) {
    forall i | 0 <= i < |order| :: order[i] < |pic| && pic[order[i]] != null
  }

  /** The slot at position i links to the next one, the last one to none. */
  ghost predicate Link(prev: seq<int>, order: seq<nat>, i: nat) {
    i < |order| && order[i] < |prev| && prev[order[i]] == From(order, i + 1)
  }

  /** The links from the head pass through the slots of `order`, each once, and end; these are
      exactly the occupied slots. */
  ghost predicate Linked(pic: seq<PicBuf?>, prev: seq<int>, head: int, order: seq<nat>) {
    && |pic| == |prev| == MAX_DPB_BUFS
    && Distinct(order) && head == From(order, 0) && Occupied(pic, order)
    && (forall i | 0 <= i < |order| :: Link(prev, order, i))
    && (forall s | 0 <= s < MAX_DPB_BUFS && pic[s] != null :: s in order)
  }

  /** The chain is full exactly when no slot is empty. */
  lemma Room(pic: seq<PicBuf?>, prev: seq<int>, head: int, order: seq<nat>)
    requires Linked(pic, prev, head, order)
    ensures |order| <= MAX_DPB_BUFS
    ensures |order| == MAX_DPB_BUFS <==> forall s | 0 <= s < MAX_DPB_BUFS :: pic[s] != null
  {
    Pigeonhole(order, MAX_DPB_BUFS);
    forall s | 0 <= s < MAX_DPB_BUFS
      ensures pic[s] != null <==> s in order
    {
    }
  }

  /** The pictures in the slots of the chain. */
  function Chain(pic: seq<PicBuf?>, order: seq<nat>): (r: seq<PicBuf>)
    requires Occupied(pic, order)
    ensures |r| == |order|
  {
    seq(|order|, i requires 0 <= i < |order| => pic[order[i]] as PicBuf)
  }

  lemma PrependDistinct(order: seq<nat>, s: nat)
    requires Distinct(order) && s !in order
    ensures Distinct([s] + order)
  {
  }

  lemma InsertLinked(pic: seq<PicBuf?>, prev: seq<int>, head: int, order: seq<nat>, s: nat, p: PicBuf, o: seq<nat>)
    requires Linked(pic, prev, head, order) && s < MAX_DPB_BUFS && pic[s] == null && o == [s] + order
    ensures Linked(pic[s := p], prev[s := head], s, o)
  {
    var q, u := pic[s := p], prev[s := head];
    InsertChain(pic, order, s, p);
    PrependDistinct(order, s);
    forall i | 0 <= i < |o|
      ensures Link(u, o, i)
    {
      if i > 0 {
        assert Link(prev, order, i - 1) && o[i] == order[i - 1];
      }
    }
    forall t | 0 <= t < MAX_DPB_BUFS && q[t] != null
      ensures t in o
    {
      if t == s { assert o[0] == s; } else { assert t in order; }
    }
  }

  lemma InsertChain(pic: seq<PicBuf?>, order: seq<nat>, s: nat, p: PicBuf)
    requires Occupied(pic, order) && s < |pic| && pic[s] == null
    ensures Occupied(pic[s := p], [s] + order) && Chain(pic[s := p], [s] + order) == [p] + Chain(pic, order)
  {
  }

  /** Links after the slot at position k of the chain is taken out. */
  function Unlinked(prev: seq<int>, order: seq<nat>, k: nat): seq<int>
    requires k < |order| && forall i | 0 <= i < |order| :: order[i] < |prev|
  {
    (if k == 0 then prev else prev[order[k - 1] := prev[order[k]]])[order[k] := NO_SLOT]
  }

  lemma WithoutDistinct(order: seq<nat>, k: nat)
    requires Distinct(order) && k < |order|
    ensures Distinct(Without(order, k)) && order[k] !in Without(order, k)
    ensures forall t | t in order && t != order[k] :: t in Without(order, k)
  {
    forall t | t in order && t != order[k]
      ensures t in Without(order, k)
    {
      var i :| 0 <= i < |order| && order[i] == t;
      assert Without(order, k)[if i < k then i else i - 1] == t;
    }
  }

  lemma UnlinkedAt(pic: seq<PicBuf?>, prev: seq<int>, head: int, order: seq<nat>, k: nat, i: nat)
    requires Linked(pic, prev, head, order) && k < |order| && i < |order| - 1
    ensures Link(Unlinked(prev, order, k), Without(order, k), i)
  {
    var at := if i < k then i else i + 1;
    assert Without(order, k)[i] == order[at] && at != k && order[at] != order[k];
    assert Link(prev, order, k) && Link(prev, order, at);
    if i + 1 != k && k > 0 { assert order[at] != order[k - 1]; }
  }

  lemma UnlinkedHead(pic: seq<PicBuf?>, prev: seq<int>, head: int, order: seq<nat>, k: nat)
    requires Linked(pic, prev, head, order) && k < |order|
    ensures (if k == 0 then prev[order[0]] else head) == From(Without(order, k), 0)
  {
    assert Link(prev, order, 0);
  }

  lemma RemainOccupied(pic: seq<PicBuf?>, order: seq<nat>, k: nat)
    requires Occupied(pic, order) && Distinct(order) && k < |order|
    ensures Occupied(pic[order[k] := null], Without(order, k))
    ensures Chain(pic[order[k] := null], Without(order, k)) == Without(Chain(pic, order), k)
  {
    var u, o := pic[order[k] := null], Without(order, k);
    forall i | 0 <= i < |o|
      ensures o[i] < |u| && u[o[i]] != null && u[o[i]] == pic[o[i]]
    {
      assert o[i] == order[if i < k then i else i + 1] && o[i] != order[k];
    }
  }

  lemma RemoveLinked(pic: seq<PicBuf?>, prev: seq<int>, head: int, order: seq<nat>, k: nat,
                     u: seq<PicBuf?>, o: seq<nat>)
    requires Linked(pic, prev, head, order) && k < |order| && u == pic[order[k] := null] && o == Without(order, k)
    ensures Linked(u, Unlinked(prev, order, k), if k == 0 then prev[order[0]] else head, o)
    ensures Chain(u, o) == Without(Chain(pic, order), k)
  {
    WithoutDistinct(order, k);
    UnlinkedHead(pic, prev, head, order, k);
    RemainOccupied(pic, order, k);
    forall i | 0 <= i < |o|
      ensures Link(Unlinked(prev, order, k), o, i)
    {
      UnlinkedAt(pic, prev, head, order, k, i);
    }
    forall t | 0 <= t < MAX_DPB_BUFS && u[t] != null
      ensures t in o
    {
      assert pic[t] != null && t != order[k];
    }
  }

  /** The first position of a value, or the length. */
  function IndexOf(s: seq<int>, v: int): (k: nat)
    ensures k <= |s| && (k < |s| ==> s[k] == v) && forall i | 0 <= i < k :: s[i] != v
  {
    if s == [] || s[0] == v then 0 else IndexOf(s[1..], v) + 1
  }

  lemma IndexOfIs(s: seq<int>, v: int, k: nat)
    requires k <= |s| && (k < |s| ==> s[k] == v) && forall i | 0 <= i < k :: s[i] != v
    ensures IndexOf(s, v) == k
  {
  }

  /** The value is not among the first i. */
  predicate Missed(s: seq<int>, v: int, i: nat) {
    i <= |s| && forall j | 0 <= j < i :: s[j] != v
  }

  lemma MissedMore(s: seq<int>, v: int, i: nat)
    requires Missed(s, v, i)
    ensures i < |s| && s[i] != v ==> Missed(s, v, i + 1)
    ensures i < |s| && s[i] == v ==> IndexOf(s, v) == i
    ensures i == |s| ==> IndexOf(s, v) == i
  {
    if i == |s| || s[i] == v { IndexOfIs(s, v, i); }
  }

  // The manager.

  class Manager {
    const pic: array<PicBuf?>
    const prev: array<int>
    var head: int
    var numRefBufs: nat
    ghost var order: seq<nat>

    ghost predicate Valid()
      reads this, pic, prev
    {
      && (pic as object) != (prev as object)
      && Linked(pic[..], prev[..], head, order) && numRefBufs == |order|
    }

    /** The reference pictures, the most recent first. */
    ghost function Pics(): (r: seq<PicBuf>)
      requires Valid()
      reads this, pic, prev
      ensures |r| == |order|
    {
      Chain(pic[..], order)
    }

    ghost function Pocs(): (r: seq<int>)
      requires Valid()
      reads this, pic, prev, Pics()
      ensures |r| == |order| && forall i | 0 <= i < |r| :: r[i] == Pics()[i].absPoc
    {
      var p := Pics();
      seq(|p|, i requires 0 <= i < |p| reads p => p[i].absPoc)
    }

    ghost function Lsbs(): (r: seq<int>)
      requires Valid()
      reads this, pic, prev, Pics()
      ensures |r| == |order| && forall i | 0 <= i < |r| :: r[i] == Pics()[i].pocLsb
    {
      var p := Pics();
      seq(|p|, i requires 0 <= i < |p| reads p => p[i].pocLsb)
    }

    constructor ()
      ensures Valid() && fresh(pic) && fresh(prev) && Pics() == []
    {
      pic, prev := new PicBuf?[MAX_DPB_BUFS], new int[MAX_DPB_BUFS];
      head, numRefBufs, order := NO_SLOT, 0, [];
      new;
      for i := 0 to MAX_DPB_BUFS
        invariant forall k | 0 <= k < i :: pic[k] == null
        modifies pic, prev
      {
        prev[i], pic[i] := NO_SLOT, null;
      }
    }

    /** Every occupied slot is on the list. */
    lemma SlotListed(s: nat) returns (i: nat)
      requires Valid() && s < MAX_DPB_BUFS && pic[s] != null
      ensures i < |order| && order[i] == s && Pics()[i] == pic[s]
    {
      assert pic[..][s] == pic[s];
      i :| 0 <= i < |order| && order[i] == s;
    }

    lemma NotListed(p: PicBuf)
      requires Valid() && forall s | 0 <= s < MAX_DPB_BUFS :: pic[s] != p
      ensures p !in Pics()
    {
      forall i | 0 <= i < |order|
        ensures Pics()[i] != p
      {
        assert pic[order[i]] != p;
      }
    }

    /** One link of the list. */
    lemma Node(i: nat)
      requires Valid() && i < |order|
      ensures order[i] < pic.Length == prev.Length && pic[order[i]] == Pics()[i] && prev[order[i]] == From(order, i + 1)
      ensures pic[order[i]].absPoc == Pocs()[i]
    {
      assert Link(prev[..], order, i);
    }

    lemma NodeLsb(i: nat)
      requires Valid() && i < |order|
      ensures order[i] < pic.Length == prev.Length && pic[order[i]] == Pics()[i] && prev[order[i]] == From(order, i + 1)
      ensures pic[order[i]].pocLsb == Lsbs()[i]
    {
      assert Link(prev[..], order, i);
    }

    /** Is the picture in some slot? */
    method Find(p: PicBuf) returns (found: bool)
      requires Valid()
      ensures found <==> p in Pics()
    {
      for i := 0 to MAX_DPB_BUFS
        invariant forall k | 0 <= k < i :: pic[k] != p
      {
        if pic[i] == p {
          var k := SlotListed(i);
          return true;
        }
      }
      NotListed(p);
      return false;
    }

    /** The first empty slot; there is none exactly when the list is full. */
    method FindEmpty() returns (s: nat)
      requires Valid()
      ensures s <= MAX_DPB_BUFS && (s < MAX_DPB_BUFS ==> pic[s] == null)
      ensures s == MAX_DPB_BUFS <==> |order| == MAX_DPB_BUFS
    {
      s := 0;
      while s < MAX_DPB_BUFS && pic[s] != null
        invariant s <= MAX_DPB_BUFS && forall k | 0 <= k < s :: pic[k] != null
      {
        s := s + 1;
      }
      Room(pic[..], prev[..], head, order);
    }

    method InsertRef(p: PicBuf, bufId: int) returns (r: int)
      requires Valid()
      modifies this, pic, prev, p
      ensures Valid()
      ensures r == if (p in old(Pics()) && old(p.usedAsRef) != UNUSED_FOR_REF) || |old(Pics())| == MAX_DPB_BUFS
                   then -1 else 0
      ensures r == 0 ==> Pics() == [p] + old(Pics())
      ensures r == 0 ==> p.bufId == bufId % 256 && p.usedAsRef == SHORT_TERM_REF
      ensures r == -1 ==> Pics() == old(Pics()) && p.bufId == old(p.bufId) && p.usedAsRef == old(p.usedAsRef)
      ensures p.absPoc == old(p.absPoc) && p.pocLsb == old(p.pocLsb)
    {
      var present := Find(p);
      if present && p.usedAsRef != UNUSED_FOR_REF {
        return -1;
      }
      var s := FindEmpty();
      if s == MAX_DPB_BUFS {
        return -1;
      }
      InsertLinked(pic[..], prev[..], head, order, s, p, [s] + order);
      InsertChain(pic[..], order, s, p);
      pic[s] := p;
      prev[s] := head;
      p.bufId := bufId % 256;
      p.usedAsRef := SHORT_TERM_REF;
      head := s;
      numRefBufs := numRefBufs + 1;
      order := [s] + order;
      assert pic[..] == old(pic[..])[s := p] && prev[..] == old(prev[..])[s := old(head)];
      return 0;
    }

    /** Follows the links to the most recent picture with the given count; `next` is the slot
        linked to it, or the head itself. */
    method Locate(poc: int) returns (next: int, unmark: int)
      requires Valid() && order != []
      ensures var k := IndexOf(Pocs(), poc);
        unmark == From(order, k) && (k < |order| ==> next == order[if k == 0 then 0 else k - 1])
    {
      ghost var pocs := Pocs();
      next := head;
      Node(0);
      MissedMore(pocs, poc, 0);
      if pic[next].absPoc == poc {
        return next, next;
      }
      var i := 1;
      while i < numRefBufs
        invariant 1 <= i <= numRefBufs && next == order[i - 1] && prev[next] == From(order, i) && Missed(pocs, poc, i)
      {
        Node(i);
        MissedMore(pocs, poc, i);
        if pic[prev[next]].absPoc == poc {
          return next, prev[next];
        }
        next := prev[next];
        i := i + 1;
      }
      MissedMore(pocs, poc, i);
      unmark := NO_SLOT;
    }

    /** Takes a slot off the list and empties it. */
    method Unlink(next: int, unmark: int, ghost k: nat)
      requires Valid() && k < |order| && unmark == order[k] && next == order[if k == 0 then 0 else k - 1]
      modifies this, pic, prev
      ensures Valid() && Pics() == Without(old(Pics()), k)
    {
      ghost var pics, links, o := pic[..], prev[..], order;
      Relink(next, unmark, k);
      RemoveLinked(pics, links, old(head), o, k, pic[..], Without(o, k));
      order := Without(o, k);
      numRefBufs := numRefBufs - 1;
    }

    /** The stores of that step. */
    method Relink(next: int, unmark: int, ghost k: nat)
      requires Valid() && k < |order| && unmark == order[k] && next == order[if k == 0 then 0 else k - 1]
      modifies `head, pic, prev
      ensures (pic as object) != (prev as object)
      ensures head == (if k == 0 then old(prev[order[0]]) else old(head))
      ensures prev[..] == Unlinked(old(prev[..]), order, k) && pic[..] == old(pic[..])[unmark := null]
    {
      assert unmark == head <==> k == 0;
      assert Link(prev[..], order, k);
      if unmark == head {
        head := prev[unmark];
      } else {
        prev[next] := prev[unmark];
        prev[unmark] := NO_SLOT;
      }
      prev[unmark] := NO_SLOT;
      pic[unmark] := null;
    }

    /** The list and the buffer table do not share an array. */
    predicate Apart(bufs: BufMgr.Manager) {
      && (bufs.status as object) != (pic as object) && (bufs.status as object) != (prev as object)
      && (bufs.ptr as object) != (pic as object) && (bufs.ptr as object) != (prev as object)
    }

    /** Releases the buffer of a picture on the list. */
    method ReleaseRef(bufs: BufMgr.Manager, unmark: int, ghost k: nat)
      requires Valid() && bufs.Valid() && Apart(bufs) && k < |order| && unmark == order[k]
      modifies bufs.status
      ensures Valid() && Pics() == old(Pics())
      ensures bufs.Content() == BufMgr.Released(old(bufs.Content()), Pics()[k].bufId, BufMgr.REF)
    {
      Node(k);
      var _ := bufs.Release(pic[unmark].bufId, BufMgr.REF);
    }

    /** Releases the buffer of a picture and takes it off the list. */
    method Remove(bufs: BufMgr.Manager, next: int, unmark: int, ghost k: nat)
      requires Valid() && bufs.Valid() && Apart(bufs)
      requires k < |order| && unmark == order[k] && next == order[if k == 0 then 0 else k - 1]
      modifies this, pic, prev, bufs.status
      ensures Valid() && bufs.Valid() && Pics() == Without(old(Pics()), k)
      ensures bufs.Content() == BufMgr.Released(old(bufs.Content()), old(Pics()[k].bufId), BufMgr.REF)
    {
      ReleaseRef(bufs, unmark, k);
      ghost var table := bufs.Content();
      Unlink(next, unmark, k);
      assert bufs.Content() == table;
    }

    /** Takes the most recent picture with the given count off the list and releases its buffer. */
    method DelRef(bufs: BufMgr.Manager, poc: int)
      requires Valid() && Pics() != [] && bufs.Valid() && Apart(bufs)
      modifies this, pic, prev, bufs.status
      ensures Valid() && bufs.Valid()
      ensures var k, pics := old(IndexOf(Pocs(), poc)), old(Pics());
        if k == |pics| then Pics() == pics && bufs.Content() == old(bufs.Content())
        else
          && Pics() == Without(pics, k)
          && bufs.Content() == BufMgr.Released(old(bufs.Content()), pics[k].bufId, BufMgr.REF)
    {
      ghost var k := IndexOf(Pocs(), poc);
      var next, unmark := Locate(poc);
      if unmark == NO_SLOT {
        return;
      }
      Remove(bufs, next, unmark, k);
    }

    /** The most recent picture with the given count. */
    method GetRefByPoc(poc: int) returns (p: PicBuf?)
      requires Valid()
      ensures var k := IndexOf(Pocs(), poc); p == if k == |Pics()| then null else Pics()[k]
    {
      ghost var want, pics := Pocs(), Pics();
      var next := head;
      var i := 0;
      while i < numRefBufs
        invariant i <= numRefBufs && next == From(order, i) && Missed(want, poc, i)
      {
        Node(i);
        MissedMore(want, poc, i);
        if pic[next].absPoc == poc {
          return pic[next];
        }
        next := prev[next];
        i := i + 1;
      }
      MissedMore(want, poc, i);
      return null;
    }

    /** The most recent picture with the given least significant bits. */
    method GetRefByPocLsb(lsb: int) returns (p: PicBuf?)
      requires Valid()
      ensures var k := IndexOf(Lsbs(), lsb); p == if k == |Pics()| then null else Pics()[k]
    {
      ghost var want, pics := Lsbs(), Pics();
      var next := head;
      var i := 0;
      while i < numRefBufs
        invariant i <= numRefBufs && next == From(order, i) && Missed(want, lsb, i)
      {
        NodeLsb(i);
        MissedMore(want, lsb, i);
        if pic[next].pocLsb == lsb {
          return pic[next];
        }
        next := prev[next];
        i := i + 1;
      }
      MissedMore(want, lsb, i);
      return null;
    }

    /** The listed pictures that are marked as used for reference. */
    ghost predicate Used(q: PicBuf)
      requires Valid()
      reads this, pic, prev, q
    {
      q in Pics() && q.usedAsRef != UNUSED_FOR_REF
    }

    /** The same of the picture in a slot. */
    ghost predicate UsedAt(k: nat)
      requires pic.Length == MAX_DPB_BUFS && k < MAX_DPB_BUFS
      reads this, pic, if pic[k] == null then {} else {pic[k]}
    {
      pic[k] != null && pic[k].usedAsRef != UNUSED_FOR_REF
    }

    /** Differences of counts fit in 32 bits, with their magnitudes. */
    ghost predicate InRange(cur: int32)
      requires Valid()
      reads this, pic, prev, Pics()
    {
      forall q | q in Pics() :: -MAX_DIFF <= cur - q.absPoc <= MAX_DIFF
    }

    lemma UsedSlot(q: PicBuf) returns (s: nat)
      requires Valid() && q in Pics()
      ensures s < MAX_DPB_BUFS && pic[s] == q
    {
      var i :| 0 <= i < |order| && Pics()[i] == q;
      s := order[i];
    }

    /** Slot scan for the closest used picture that precedes cur. */
    method Preceding(cur: int32) returns (p: PicBuf?, ghost slot: nat)
      requires Valid() && InRange(cur)
      ensures p == null <==> forall q | Used(q) :: !(0 < cur - q.absPoc < MAX_DIFF)
      ensures p != null ==> Used(p) && 0 < cur - p.absPoc < MAX_DIFF
      ensures p != null ==> forall q | Used(q) && 0 < cur - q.absPoc :: cur - p.absPoc <= cur - q.absPoc
      ensures p != null ==> slot < MAX_DPB_BUFS && pic[slot] == p
      ensures p != null ==> forall k | 0 <= k < slot && UsedAt(k) && 0 < cur - pic[k].absPoc ::
        cur - p.absPoc < cur - pic[k].absPoc
    {
      var minDiff: int32 := 0x7FFF_FFFF;
      p, slot := null, 0;
      for i := 0 to MAX_DPB_BUFS
        invariant p == null ==> minDiff == MAX_DIFF
        invariant p != null ==> Used(p) && 0 < cur - p.absPoc == minDiff < MAX_DIFF
        invariant p != null ==> slot < i && pic[slot] == p
        invariant forall k | 0 <= k < i && UsedAt(k) && 0 < cur - pic[k].absPoc :: minDiff <= cur - pic[k].absPoc
        invariant p != null ==> forall k | 0 <= k < slot && UsedAt(k) && 0 < cur - pic[k].absPoc ::
          minDiff < cur - pic[k].absPoc
      {
        if pic[i] != null {
          var k := SlotListed(i);
          if pic[i].usedAsRef != UNUSED_FOR_REF {
            var diff: int32 := cur - pic[i].absPoc;
            if diff > 0 && diff < minDiff {
              minDiff, p, slot := diff, pic[i], i;
            }
          }
        }
      }
      forall q | Used(q) && 0 < cur - q.absPoc
        ensures minDiff <= cur - q.absPoc
      {
        var s := UsedSlot(q);
      }
    }

    /** A bound over the slots is a bound over the used pictures. */
    lemma UsedBound(cur: int, bound: int)
      requires Valid()
      requires forall k | 0 <= k < MAX_DPB_BUFS && UsedAt(k) :: bound <= Abs(cur - pic[k].absPoc)
      ensures forall q | Used(q) :: bound <= Abs(cur - q.absPoc)
    {
      forall q | Used(q)
        ensures bound <= Abs(cur - q.absPoc)
      {
        var s := UsedSlot(q);
      }
    }

    /** Slot scan for the closest used picture on either side of cur. */
    method Closest(cur: int32) returns (p: PicBuf?, ghost slot: nat)
      requires Valid() && InRange(cur)
      ensures p == null <==> forall q | Used(q) :: Abs(cur - q.absPoc) == MAX_DIFF
      ensures p != null ==> Used(p) && forall q | Used(q) :: Abs(cur - p.absPoc) <= Abs(cur - q.absPoc)
      ensures p != null ==> slot < MAX_DPB_BUFS && pic[slot] == p
      ensures p != null ==> forall k | 0 <= k < slot && UsedAt(k) :: Abs(cur - p.absPoc) < Abs(cur - pic[k].absPoc)
    {
      var minDiff: int32 := 0x7FFF_FFFF;
      p, slot := null, 0;
      for i := 0 to MAX_DPB_BUFS
        invariant p == null ==> minDiff == MAX_DIFF
        invariant p != null ==> Used(p) && Abs(cur - p.absPoc) == minDiff < MAX_DIFF
        invariant p != null ==> slot < i && pic[slot] == p
        invariant forall k | 0 <= k < i && UsedAt(k) :: minDiff <= Abs(cur - pic[k].absPoc)
        invariant p != null ==> forall k | 0 <= k < slot && UsedAt(k) :: minDiff < Abs(cur - pic[k].absPoc)
      {
        if pic[i] != null {
          var k := SlotListed(i);
          if pic[i].usedAsRef != UNUSED_FOR_REF {
            var diff: int32 := cur - pic[i].absPoc;
            if Abs(diff) < minDiff {
              minDiff, p, slot := Abs(diff), pic[i], i;
            }
          }
        }
      }
      UsedBound(cur, minDiff);
    }

    /** The closest used picture that precedes cur if there is one, otherwise the closest used
        picture; among equals the one in the lowest slot. Distances of MAX_DIFF count as no
        picture; apart from those, NULL means that the list holds none. */
    method GetRefByNearestPoc(cur: int32) returns (p: PicBuf?, ghost slot: nat)
      requires Valid() && InRange(cur)
      ensures p == null <==> forall q | Used(q) :: Abs(cur - q.absPoc) == MAX_DIFF
      ensures p != null ==> Used(p) && slot < MAX_DPB_BUFS && pic[slot] == p
      ensures (exists q | Used(q) :: 0 < cur - q.absPoc < MAX_DIFF) ==>
        && p != null && 0 < cur - p.absPoc
        && (forall q | Used(q) && 0 < cur - q.absPoc :: cur - p.absPoc <= cur - q.absPoc)
        && (forall k | 0 <= k < slot && UsedAt(k) && 0 < cur - pic[k].absPoc :: cur - p.absPoc < cur - pic[k].absPoc)
      ensures p != null && !(exists q | Used(q) :: 0 < cur - q.absPoc < MAX_DIFF) ==>
        && (forall q | Used(q) :: Abs(cur - p.absPoc) <= Abs(cur - q.absPoc))
        && (forall k | 0 <= k < slot && UsedAt(k) :: Abs(cur - p.absPoc) < Abs(cur - pic[k].absPoc))
    {
      p, slot := Preceding(cur);
      if p == null {
        p, slot := Closest(cur);
      }
    }
  }
}
