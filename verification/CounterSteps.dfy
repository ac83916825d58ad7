/**
 The steps of `DirtyCounters`, done by the routines on the mask and on the list of Bcbs: what each does to its
 stream's count, to the total and to the stream's place on the dirty list is the step of that name.
 */
module CounterSteps {
  import opened CacheGlobals
  import MaskBcb
  import MaskScan
  import MaskStream
  import BcbList
  import opened DirtyCounters

  // ----- The mask --------------------------------------------------------------------------------------

  /** Stream `k` of the state is this stream, as far as its mask and its counters go. */
  ghost predicate CountsMask(s: MaskStream.SharedCacheMap, st: State, k: nat)
    reads s, s.mbcb, s.cc
  {
    && s.Valid() && k < |st.streams| && st.streams[k].mask == s.Dirty()
    && IsCounted(st, k, s.dirtyPages, s.cc.totalDirtyPages, s.onDirtyList)
  }

  predicate IsCounted(st: State, k: nat, dirtyPages: int, total: int, onDirtyList: bool)
    requires k < |st.streams|
  {
    st.streams[k].dirtyPages == dirtyPages && st.total == total && (k in st.onDirty <==> onDirtyList)
  }

  method MarkStep(s: MaskStream.SharedCacheMap, first: nat, last: nat, zone: (bool, bool), mbcbOk: bool, rangeOk: bool,
                  ghost st: State, ghost k: nat)
    returns (marked: bool, ghost now: State)
    requires CountsMask(s, st, k) && first <= last < s.sectionPages <= MaskBcb.PAGE_LIMIT
    requires MaskBcb.BaseOf(first) == MaskBcb.BaseOf(last)
    modifies s`dirtyPages, s`onDirtyList, s`mbcb, s.mbcb, s.cc`totalDirtyPages
    ensures marked <==> old(s.CanMark(first, last, zone, mbcbOk, rangeOk))
    ensures now == if marked then After(st, Mark(k, MaskBcb.PageRun(first, last + 1))) else st
    ensures CountsMask(s, now, k)
  {
    hide MaskBcb.RangesOk, MaskBcb.Aligned, MaskBcb.LargeBitmaps, MaskBcb.DirtyOf, MaskBcb.PageRun, MaskBcb.BaseOf;
    ghost var run, was := MaskBcb.PageRun(first, last + 1), s.Dirty();
    s.CounterIsCount();
    var taken;
    marked, taken := s.SetPagesDirty(first, last, zone, mbcbOk, rangeOk);
    s.CounterIsCount();
    now := if marked then After(st, Mark(k, run)) else st;
    SizeOfUnion(was, run);
  }

  method TakeStep(s: MaskStream.SharedCacheMap, target: Option<int>, targetLength: nat, ghost st: State, ghost k: nat)
    returns (found: bool, page: int, pages: int, ghost now: State)
    requires CountsMask(s, st, k) && (target.Some? ==> target.value >= 0 && targetLength > 0)
    modifies s`dirtyPages, s`pagesToWrite, s`onDirtyList, s.mbcb, s.cc
    ensures found ==> Possible(st, Take(k, MaskBcb.PageRun(page, page + pages)))
    ensures now == if found then After(st, Take(k, MaskBcb.PageRun(page, page + pages))) else st
    ensures CountsMask(s, now, k)
  {
    hide MaskBcb.RangesOk, MaskBcb.Aligned, MaskBcb.LargeBitmaps, MaskBcb.DirtyOf, MaskStream.CanRemark, MaskStream.RunIsFull,
      MaskStream.ResumesAfter, MaskScan.WillResume, MaskScan.LazyPlace, MaskScan.OnlyTightened, MaskScan.NoneIn;
    found, page, pages := s.AcquireByteRange(target, targetLength);
    now := st;
    if found {
      assert page in MaskBcb.PageRun(page, page + pages);
      now := After(st, Take(k, MaskBcb.PageRun(page, page + pages)));
    }
  }

  method DeleteMaskStep(s: MaskStream.SharedCacheMap, ghost st: State, ghost k: nat) returns (ghost now: State)
    requires CountsMask(s, st, k)
    modifies s`mbcb, s`dirtyPages, s.mbcb, s.cc`totalDirtyPages
    ensures now == After(st, DeleteMask(k)) && CountsMask(s, now, k)
  {
    hide MaskBcb.RangesOk, MaskBcb.Aligned, MaskBcb.LargeBitmaps, MaskBcb.DirtyOf;
    s.CounterIsCount();
    var returned := s.DeleteMbcb();
    now := After(st, DeleteMask(k));
  }

  // ----- The Bcbs --------------------------------------------------------------------------------------

  function PinnedAs(b: BcbList.Bcb): Pinned
    requires BcbList.BcbOk(b)
  {
    Pinned(b.byteLength / 4096, b.dirty)
  }

  ghost predicate SameBcbs(bcbs: seq<BcbList.Bcb>, pinned: seq<Pinned>) {
    && BcbList.ListOk(bcbs) && |pinned| == |bcbs|
    && forall i | 0 <= i < |bcbs| :: BcbList.BcbOk(bcbs[i]) && pinned[i] == PinnedAs(bcbs[i])
  }

  ghost predicate CountsBcbs(s: BcbList.BcbStream, st: State, k: nat)
    reads s, s.cc
  {
    && s.Valid() && k < |st.streams| && SameBcbs(s.bcbs, st.streams[k].bcbs)
    && st.streams[k].openCount == s.openCount && st.streams[k].writeBehind == s.writeBehind
    && IsCounted(st, k, s.dirtyPages, s.cc.totalDirtyPages, s.onDirtyList)
  }

  lemma SameBcbsUpdate(bcbs: seq<BcbList.Bcb>, pinned: seq<Pinned>, j: nat, b: BcbList.Bcb)
    requires SameBcbs(bcbs, pinned) && j < |bcbs| && BcbList.SamePlace(b, bcbs[j])
    ensures SameBcbs(bcbs[j := b], pinned[j := Pinned(pinned[j].pages, b.dirty)])
  {
    var now := bcbs[j := b];
    BcbList.UpdateKeepsList(bcbs, j, b);
    forall i | 0 <= i < |now| ensures BcbList.BcbOk(now[i]) {
    }
  }

  lemma SameBcbsRemoval(bcbs: seq<BcbList.Bcb>, pinned: seq<Pinned>, j: nat)
    requires SameBcbs(bcbs, pinned) && j < |bcbs|
    ensures SameBcbs(BcbList.Removed(bcbs, j), pinned[..j] + pinned[j + 1..])
  {
    BcbList.RemovalKeepsList(bcbs, j);
    var now := BcbList.Removed(bcbs, j);
    forall i | 0 <= i < |now| ensures BcbList.BcbOk(now[i]) && (pinned[..j] + pinned[j + 1..])[i] == PinnedAs(now[i]) {
      assert now[i] == bcbs[if i < j then i else i + 1];
    }
  }

  /** CcSetDirtyPinnedData on one Bcb. */
  method SetDirtyStep(s: BcbList.BcbStream, j: nat, lsn: Option<int>, ghost st: State, ghost k: nat) returns (ghost now: State)
    requires CountsBcbs(s, st, k) && j < |s.bcbs| && (lsn.Some? ==> lsn.value > 0)
    modifies s`bcbs, s`dirtyPages, s`onDirtyList, s`validDataGoal, s.cc`totalDirtyPages
    ensures now == After(st, SetDirty(k, j)) && CountsBcbs(s, now, k)
  {
    hide BcbList.ListOk, BcbList.InUse, BcbList.DirtyPagesOf, BcbList.Dirtied;
    ghost var was, pinned := s.bcbs, st.streams[k].bcbs;
    BcbList.LsnsAt(was, j);
    BcbList.DirtiedEncloses(was[j], lsn);
    SameBcbsUpdate(was, pinned, j, BcbList.Dirtied(was[j], lsn));
    BcbList.DirtyPagesUpdate(was, j, BcbList.Dirtied(was[j], lsn));
    s.SetDirtyOne(j, lsn);
    now := After(st, SetDirty(k, j));
    assert now.streams[k].bcbs == pinned[j := Pinned(pinned[j].pages, true)];
  }

  /** CcUnpinFileDataEx: SET_CLEAN is the step of that name, and the last pin of a clean Bcb drops it. */
  method UnpinStep(s: BcbList.BcbStream, j: nat, action: BcbList.UnmapAction, ghost st: State, ghost k: nat)
    returns (ghost mid: State, ghost now: State)
    requires CountsBcbs(s, st, k) && j < |s.bcbs| && (action.SET_CLEAN? || s.bcbs[j].pinCount > 0)
    modifies s`bcbs, s`dirtyPages, s`onDirtyList, s.cc
    ensures mid == if action.SET_CLEAN? then After(st, SetClean(k, j)) else st
    ensures var b := BcbList.Released(old(s.bcbs)[j], action);
            if b.pinCount == 0 && !b.dirty then Possible(mid, DropBcb(k, j)) && now == After(mid, DropBcb(k, j)) else now == mid
    ensures CountsBcbs(s, now, k)
  {
    hide BcbList.ListOk, BcbList.InUse, BcbList.DirtyPagesOf;
    ghost var was, pinned, b := s.bcbs, st.streams[k].bcbs, BcbList.Released(s.bcbs[j], action);
    BcbList.LsnsAt(was, j);
    SameBcbsUpdate(was, pinned, j, b);
    SameBcbsUpdate(was, pinned, j, b.(mapped := false));
    SameBcbsRemoval(was, pinned, j);
    s.UnpinFileData(j, action);
    mid := if action.SET_CLEAN? then After(st, SetClean(k, j)) else st;
    assert mid.streams[k].bcbs == pinned[j := Pinned(pinned[j].pages, b.dirty)];
    now := mid;
    if b.pinCount == 0 && !b.dirty {
      now := After(mid, DropBcb(k, j));
      assert now.streams[k].bcbs == pinned[..j] + pinned[j + 1..];
    }
  }

  /** CcPinFileData, where it allocates a Bcb that fits. */
  method PinStep(s: BcbList.BcbStream, r: BcbList.PinRequest, grant: bool, memory: bool, ghost st: State, ghost k: nat)
    returns (step: BcbList.PinStep, ghost now: State)
    requires CountsBcbs(s, st, k) && 0 <= r.offset && 0 <= r.length < BcbList.FOUR_GB && BcbList.Sound(s.bcbs, r)
    modifies s`bcbs
    ensures if step.Pinned? && !BcbList.Covered(old(s.bcbs), r.offset)
            then step.k <= |old(s.bcbs)| && step.k < |s.bcbs| && s.bcbs[step.k].byteLength >= 0 &&
                 now == After(st, AddBcb(k, step.k, s.bcbs[step.k].byteLength / 4096))
            else now == st
    ensures CountsBcbs(s, now, k)
  {
    hide BcbList.ListOk, BcbList.InUse, BcbList.DirtyPagesOf, BcbList.NewBcb, BcbList.Bound, BcbList.Covered;
    ghost var was, pinned := s.bcbs, st.streams[k].bcbs;
    step := s.FindOrAllocate(r, grant, memory);
    now := st;
    if step.Pinned? {
      ghost var b := if BcbList.Covered(was, r.offset) then was[step.k].(pinCount := was[step.k].pinCount + 1)
                     else BcbList.NewBcb(r.offset, BcbList.Bound(was, step.k, r.offset, r.length));
      if BcbList.Covered(was, r.offset) {
        BcbList.LsnsAt(was, step.k);
        SameBcbsUpdate(was, pinned, step.k, b);
        assert pinned[step.k := Pinned(pinned[step.k].pages, b.dirty)] == pinned;
      } else {
        BcbList.IsNew(r.offset, BcbList.Bound(was, step.k, r.offset, r.length));
        SameBcbsInsertion(was, pinned, step.k, b);
        now := After(st, AddBcb(k, step.k, b.byteLength / 4096));
      }
    }
  }

  lemma SameBcbsInsertion(bcbs: seq<BcbList.Bcb>, pinned: seq<Pinned>, j: nat, b: BcbList.Bcb)
    requires SameBcbs(bcbs, pinned) && j <= |bcbs| && !b.dirty && BcbList.ListOk(BcbList.Inserted(bcbs, j, b))
    ensures b.byteLength >= 0 && SameBcbs(BcbList.Inserted(bcbs, j, b), pinned[..j] + [Pinned(b.byteLength / 4096, false)] + pinned[j..])
  {
    var now := BcbList.Inserted(bcbs, j, b);
    assert now[j] == b && BcbList.BcbOk(now[j]);
    forall i | 0 <= i < |now|
      ensures BcbList.BcbOk(now[i]) && (pinned[..j] + [Pinned(b.byteLength / 4096, false)] + pinned[j..])[i] == PinnedAs(now[i])
    {
      if i != j { assert now[i] == bcbs[if i < j then i else i - 1]; }
    }
  }

  /** CcDeleteBcbs. */
  method DeleteBcbsStep(s: BcbList.BcbStream, ghost st: State, ghost k: nat) returns (ghost now: State)
    requires CountsBcbs(s, st, k) && forall i | 0 <= i < |s.bcbs| :: s.bcbs[i].pinCount == 0
    modifies s`bcbs, s`dirtyPages, s.cc`totalDirtyPages
    ensures now == After(st, DeleteBcbs(k)) && CountsBcbs(s, now, k)
  {
    hide BcbList.InUse;
    SamePages(s.bcbs, st.streams[k].bcbs);
    s.DeleteBcbs();
    now := After(st, DeleteBcbs(k));
  }

  lemma {:induction false} SamePages(bcbs: seq<BcbList.Bcb>, pinned: seq<Pinned>)
    requires |pinned| == |bcbs| && forall i | 0 <= i < |bcbs| :: BcbList.BcbOk(bcbs[i]) && pinned[i] == PinnedAs(bcbs[i])
    ensures BcbList.DirtyPagesOf(bcbs) == BcbPages(pinned)
  {
    if bcbs != [] { SamePages(bcbs[1..], pinned[1..]); }
  }
}
