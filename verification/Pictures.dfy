/** The three managers as the decoder drives them: each of its steps is a short sequence of
    actions of Runs, and keeps their invariant. */
module Pictures {
  import opened Common
  import BufMgr
  import DispMgr
  import DpbMgr
  import Runs

  /** References as (buffer, count) pairs. */
  ghost function Refs(pics: seq<DpbMgr.PicBuf>): (r: seq<Runs.Ref>)
    reads pics
    ensures |r| == |pics| && forall i | 0 <= i < |r| :: r[i] == Runs.Ref(pics[i].bufId, pics[i].absPoc)
  {
    seq(|pics|, i requires 0 <= i < |pics| reads pics => Runs.Ref(pics[i].bufId, pics[i].absPoc))
  }

  lemma RefsWithout(pics: seq<DpbMgr.PicBuf>, k: nat)
    requires k < |pics|
    ensures Refs(Without(pics, k)) == Without(Refs(pics), k)
    ensures forall p | p in Without(pics, k) :: p in pics
  {
    var l, r := Refs(Without(pics, k)), Without(Refs(pics), k);
    forall i | 0 <= i < |l|
      ensures l[i] == r[i]
    {
    }
  }

  class Pool {
    const bufs: BufMgr.Manager
    const dpb: DpbMgr.Manager
    const disp: DispMgr.Manager
    /** The picture structure of each buffer. */
    const pics: array<DpbMgr.PicBuf>
    ghost var decoding: set<nat>
    ghost var shown: set<nat>

    ghost predicate Separate()
      reads this, bufs, dpb, disp
    {
      && {bufs.status as object} !! {bufs.ptr as object} !! {dpb.pic as object} !! {dpb.prev as object}
      !! {disp.poc as object} !! {disp.ptr as object} !! {pics as object}
    }

    /** Every reference is the structure of its buffer. */
    ghost predicate Listed()
      requires dpb.Valid()
      reads this, dpb, pics, dpb.pic, dpb.prev, pics[..]
    {
      && pics.Length == BufMgr.BUF_MGR_MAX_CNT
      && (forall i, j | 0 <= i < j < pics.Length :: pics[i] != pics[j])
      && Structures(dpb.Pics())
    }

    ghost predicate Structures(refs: seq<DpbMgr.PicBuf>)
      requires pics.Length == BufMgr.BUF_MGR_MAX_CNT
      reads this, pics, pics[..]
    {
      forall p | p in refs :: p in pics[..] && p.bufId < BufMgr.BUF_MGR_MAX_CNT && pics[p.bufId] == p
    }

    ghost predicate Valid()
      reads this, bufs, dpb, disp, pics, bufs.status, bufs.ptr, dpb.pic, dpb.prev, disp.poc, disp.ptr, pics[..]
    {
      && Separate() && bufs.Valid() && dpb.Valid() && disp.Valid()
      && Listed() && Runs.Inv(State())
    }

    ghost function State(): (s: Runs.State)
      requires bufs.Valid() && dpb.Valid() && disp.Valid()
      reads this, bufs, dpb, disp, bufs.status, bufs.ptr, dpb.pic, dpb.prev, disp.poc, disp.ptr, dpb.Pics()
      ensures s.Valid()
    {
      Runs.State(bufs.Content(), Refs(dpb.Pics()), disp.Content(), decoding, shown)
    }

    constructor (bufs: BufMgr.Manager, dpb: DpbMgr.Manager, disp: DispMgr.Manager, pics: array<DpbMgr.PicBuf>)
      requires {bufs.status as object} !! {bufs.ptr as object} !! {dpb.pic as object} !! {dpb.prev as object}
        !! {disp.poc as object} !! {disp.ptr as object} !! {pics as object}
      requires bufs.Valid() && dpb.Valid() && disp.Valid() && pics.Length == BufMgr.BUF_MGR_MAX_CNT
      requires forall i, j | 0 <= i < j < pics.Length :: pics[i] != pics[j]
      requires bufs.Content().status == BufMgr.Empty().status && dpb.Pics() == [] && disp.Content() == DispMgr.Empty()
      ensures Valid() && State() == Runs.Start(bufs.ptr[..])
    {
      this.bufs, this.dpb, this.disp, this.pics := bufs, dpb, disp, pics;
      decoding, shown := {}, {};
      new;
      Runs.StartSound(bufs.ptr[..]);
      assert State() == Runs.Start(bufs.ptr[..]);
    }

    /** The next picture for display. */
    method Show() returns (id: int)
      requires Valid()
      modifies `shown, disp.poc, disp.ptr
      ensures Valid() && State() == Runs.Next(old(State()), Runs.Show)
    {
      Runs.StepKeepsInv(State(), Runs.Show);
      var p: nat;
      p, id := disp.Get();
      if id != -1 { shown := shown + {id}; }
    }

    /** Display gives a picture back. */
    method Release(id: nat)
      requires Valid() && Runs.Allowed(State(), Runs.Release(id))
      modifies `shown, bufs.status
      ensures Valid() && State() == Runs.Next(old(State()), Runs.Release(id))
    {
      ghost var t := Runs.Next(State(), Runs.Release(id));
      Runs.StepKeepsInv(State(), Runs.Release(id));
      var _ := bufs.Release(id, BufMgr.DISP);
      assert bufs.Content() == t.bufs && Refs(dpb.Pics()) == t.dpb && disp.Content() == t.disp;
      shown := t.shown;
    }

    lemma Counts()
      requires Valid()
      ensures dpb.Pocs() == Runs.Pocs(State().dpb)
    {
    }

    /** The list and the buffer that reference marking changes. */
    method Unreference(poc: int32)
      requires Valid() && dpb.Pics() != []
      modifies dpb, dpb.pic, dpb.prev, bufs.status
      ensures Separate() && bufs.Valid() && dpb.Valid() && disp.Valid()
      ensures State() == Runs.Next(old(State()), Runs.Drop(poc))
      ensures forall p | p in dpb.Pics() :: p in old(dpb.Pics())
    {
      ghost var s, was, k := State(), dpb.Pics(), DpbMgr.IndexOf(dpb.Pocs(), poc);
      Counts();
      dpb.DelRef(bufs, poc);
      assert Refs(was) == s.dpb;
      if k < |was| {
        RefsWithout(was, k);
        assert State() == s.(bufs := BufMgr.Released(s.bufs, s.dpb[k].id, BufMgr.REF), dpb := Without(s.dpb, k));
      } else {
        assert State() == s;
      }
    }

    /** Reference marking drops the picture with the given count. */
    method Drop(poc: int32)
      requires Valid() && dpb.Pics() != []
      modifies dpb, dpb.pic, dpb.prev, bufs.status
      ensures Valid() && State() == Runs.Next(old(State()), Runs.Drop(poc))
    {
      ghost var was := dpb.Pics();
      Runs.StepKeepsInv(State(), Runs.Drop(poc));
      Unreference(poc);
      assert Structures(was);
    }

    /** The structure of a buffer that is no reference is not on the list. */
    lemma NotOnList(id: nat)
      requires Valid() && id < pics.Length && !State().Referenced(id)
      ensures pics[id] !in dpb.Pics()
    {
      forall i | 0 <= i < |dpb.Pics()|
        ensures dpb.Pics()[i] != pics[id]
      {
        assert State().dpb[i].id != id;
        assert pics[dpb.Pics()[i].bufId] == dpb.Pics()[i];
      }
    }

    /** What acquiring will find. */
    lemma NextIsUnused()
      requires Valid()
      ensures Runs.Inv(Runs.Next(State(), Runs.Acquire))
      ensures var f := BufMgr.FirstFree(bufs.Content(), 0);
        f < BufMgr.BUF_MGR_MAX_CNT ==> f !in shown && pics[f] !in dpb.Pics()
    {
      var f := BufMgr.FirstFree(bufs.Content(), 0);
      Runs.StepKeepsInv(State(), Runs.Acquire);
      if f < BufMgr.BUF_MGR_MAX_CNT {
        Runs.FreeIsUnused(State(), f);
        NotOnList(f);
      }
    }

    /** Takes the lowest free buffer; -1 if none is free. */
    method Acquire() returns (id: int)
      requires Valid()
      modifies `decoding, bufs.status
      ensures Valid() && State() == Runs.Next(old(State()), Runs.Acquire)
      ensures id == -1 ==>
        State() == old(State()) && forall k | 0 <= k < BufMgr.BUF_MGR_MAX_CNT :: !old(bufs.Content()).Free(k)
      ensures id != -1 ==> 0 <= id < pics.Length && id in decoding && id !in shown && pics[id] !in dpb.Pics()
    {
      ghost var t := Runs.Next(State(), Runs.Acquire);
      NextIsUnused();
      var p, k := bufs.GetNextFree();
      if p == 0 {
        return -1;
      }
      decoding := t.decoding;
      return k;
    }

    /** Gives the structure of a picture that is no reference a new count: no reference changes. */
    method Recount(id: nat, poc: int32, lsb: int32)
      requires Valid() && id < pics.Length && pics[id] !in dpb.Pics()
      modifies pics[id]
      ensures Valid() && State() == old(State())
      ensures pics[id].absPoc == poc && pics[id].pocLsb == lsb
    {
      ghost var was := Refs(dpb.Pics());
      pics[id].absPoc, pics[id].pocLsb := poc, lsb;
      assert Refs(dpb.Pics()) == was;
    }

    /** Queues a picture for display. */
    method Queue(id: nat, poc: int32)
      requires Valid() && Runs.Allowed(State(), Runs.Queue(id, poc)) && id < pics.Length
      modifies disp.poc, disp.ptr
      ensures Valid() && State() == Runs.Next(old(State()), Runs.Queue(id, poc))
    {
      Runs.StepKeepsInv(State(), Runs.Queue(id, poc));
      var _ := disp.Add(DispMgr.Frame(id, poc, bufs.ptr[id]));
    }

    /** A new picture takes a free buffer and is queued for display; -1 if none is free. Giving
        its structure a new count changes no reference. */
    method Begin(poc: int32, lsb: int32) returns (id: int)
      requires Valid() && poc != DispMgr.DEFAULT_POC
      modifies `decoding, bufs.status, disp.poc, disp.ptr, pics[..]
      ensures Valid() && dpb.Pics() == old(dpb.Pics())
      ensures id == -1 ==>
        State() == old(State()) && forall k | 0 <= k < BufMgr.BUF_MGR_MAX_CNT :: !old(bufs.Content()).Free(k)
      ensures id != -1 ==> 0 <= id < pics.Length && pics[id].absPoc == poc && pics[id].pocLsb == lsb
      ensures id != -1 ==> State() == Runs.Next(Runs.Next(old(State()), Runs.Acquire), Runs.Queue(id, poc))
    {
      id := Acquire();
      if id != -1 {
        Recount(id, poc, lsb);
        Queue(id, poc);
      }
    }

    /** Reserves a picture. */
    method Reserve(id: nat, mask: bv32)
      requires Valid() && Runs.Allowed(State(), Runs.Mark(id, mask))
      modifies bufs.status
      ensures Valid() && State() == Runs.Next(old(State()), Runs.Mark(id, mask))
    {
      Runs.StepKeepsInv(State(), Runs.Mark(id, mask));
      var _ := bufs.SetStatus(id, mask);
    }

    lemma MayInsert(id: nat)
      requires Valid() && id in decoding
      ensures id < pics.Length && pics[id] !in dpb.Pics() && |dpb.Pics()| < DpbMgr.MAX_DPB_BUFS
    {
      assert Runs.Sound(Runs.ViewOf(State(), id));
      Runs.RoomForOne(State(), id);
      NotOnList(id);
    }

    /** What a list without this picture still means once the picture is in front of it. */
    lemma ListedInFront(id: nat, was: seq<DpbMgr.PicBuf>)
      requires dpb.Valid() && pics.Length == BufMgr.BUF_MGR_MAX_CNT && id < pics.Length
      requires dpb.Pics() == [pics[id]] + was && pics[id].bufId == id
      requires forall p | p in was :: p in pics[..] && p.bufId < BufMgr.BUF_MGR_MAX_CNT && pics[p.bufId] == p
      ensures forall p | p in dpb.Pics() :: p in pics[..] && p.bufId < BufMgr.BUF_MGR_MAX_CNT && pics[p.bufId] == p
      ensures Refs(dpb.Pics()) == [Runs.Ref(id, pics[id].absPoc)] + Refs(was)
    {
    }

    /** A reserved picture becomes a reference: this cannot fail. */
    method Insert(id: nat)
      requires Valid() && id < pics.Length && Runs.Allowed(State(), Runs.Insert(id, pics[id].absPoc))
      modifies `decoding, dpb, dpb.pic, dpb.prev, pics[id]
      ensures Valid() && dpb.Pics() == [pics[id]] + old(dpb.Pics())
      ensures State() == Runs.Next(old(State()), Runs.Insert(id, old(pics[id].absPoc)))
    {
      ghost var s, was := State(), dpb.Pics();
      MayInsert(id);
      Runs.StepKeepsInv(s, Runs.Insert(id, pics[id].absPoc));
      var r := dpb.InsertRef(pics[id], id);
      assert r == 0;
      decoding := decoding - {id};
      assert Refs(was) == s.dpb;
      ListedInFront(id, was);
    }

    /** A decoded picture is reserved for reference and for display, and becomes a reference. */
    method Finish(id: nat)
      requires Valid() && id < pics.Length && id in decoding
      modifies `decoding, dpb, dpb.pic, dpb.prev, bufs.status, pics[id]
      ensures Valid() && dpb.Pics() == [pics[id]] + old(dpb.Pics())
      ensures var marked := Runs.Next(Runs.Next(old(State()), Runs.Mark(id, BufMgr.REF)), Runs.Mark(id, BufMgr.DISP));
        State() == Runs.Next(marked, Runs.Insert(id, old(pics[id].absPoc)))
    {
      Reserved(State(), id);
      Reserve(id, BufMgr.REF);
      assert Runs.Sound(Runs.ViewOf(State(), id));
      Reserve(id, BufMgr.DISP);
      Insert(id);
    }

    /** With both reservations made, or found made, the picture may become a reference. */
    static lemma Reserved(s: Runs.State, id: nat)
      requires Runs.Inv(s) && id in s.decoding
      ensures var t := Runs.Next(Runs.Next(s, Runs.Mark(id, BufMgr.REF)), Runs.Mark(id, BufMgr.DISP));
        forall poc :: Runs.Allowed(t, Runs.Insert(id, poc))
    {
      assert Runs.Sound(Runs.ViewOf(s, id)) && BufMgr.Proper(s.Status(id));
      BufMgr.MarkBits(s.Status(id), BufMgr.REF);
      var u := Runs.Next(s, Runs.Mark(id, BufMgr.REF));
      Runs.StepKeepsInv(s, Runs.Mark(id, BufMgr.REF));
      assert BufMgr.Proper(u.Status(id)) && Runs.Sound(Runs.ViewOf(u, id));
      BufMgr.MarkBits(u.Status(id), BufMgr.DISP);
    }
  }
}
