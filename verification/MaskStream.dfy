/** Dirty tracking of a user data stream by its mask: CcSetDirtyInMask, the mask part of
    CcAcquireByteRangeForWrite, and CcDeleteMbcb. Each holds the stream's spin lock throughout. */
module MaskStream {
  import opened CacheGlobals
  import opened MaskBcb
  import opened MaskScan
  import opened MaskRuns

  function FirstPage(offset: int): int { offset / 4096 }

  function LastPage(offset: int, length: int): int { (offset + length - 1) / 4096 }

  method MarkInRange(m: Mbcb, index: nat, first: int, last: int) returns (charged: int)
    requires m.Valid() && index < |m.ranges| && m.ranges[index].basePage == BaseOf(first)
    requires 0 <= first <= last < PAGE_LIMIT && last - BaseOf(first) < |m.ranges[index].bitmap|
    modifies m`ranges, m`dirtyPages
    ensures m.Valid() && m.Dirty() == old(m.Dirty()) + PageRun(first, last + 1)
    ensures m.dirtyPages == old(m.dirtyPages) + charged && Bitmaps(m.ranges) == Bitmaps(old(m.ranges))
    ensures |m.ranges| == |old(m.ranges)|
  {
    var marked := SetRun(m.ranges[index], first, last);
    MarkedDirty(m.ranges, index, marked, first, last);
    charged := marked.dirtyPages - m.ranges[index].dirtyPages;
    m.Replace(index, marked);
  }

  lemma CountIsNonNegative(m: Mbcb)
    requires m.Valid()
    ensures m.dirtyPages >= 0
  {
    SumIsNonNegative(m.ranges);
  }

  lemma MarkedDirty(rs: seq<BitmapRange>, index: nat, marked: BitmapRange, first: int, last: int)
    requires RangesOk(rs) && index < |rs| && RangeOk(marked) && marked.basePage == rs[index].basePage
    requires Pages(marked) == Pages(rs[index]) + PageRun(first, last + 1)
    ensures DirtyOf(rs[index := marked]) == DirtyOf(rs) + PageRun(first, last + 1)
  {
    hide RangesOk, RangeOk, DirtyOf, Pages, Aligned;
    UpdateRange(rs, index, marked);
    PagesOfRangeAreDirty(rs, index);
  }

  class SharedCacheMap {
    const cc: Globals
    const writeBehind: bool                       // DISABLE_WRITE_BEHIND is off
    var mbcb: Mbcb?
    var sectionPages: int
    var dirtyPages: int
    var pagesToWrite: nat
    var onDirtyList: bool
    var validDataGoal: int
    ghost var otherPages: nat                     // charged for pinned Bcbs and the active page

    ghost predicate Valid()
      reads this, mbcb
    {
      && (mbcb != null ==> mbcb.Valid() && (mbcb.grande ==> sectionPages > INITIAL_PAGES))
      && dirtyPages == (if mbcb == null then 0 else mbcb.dirtyPages) + otherPages
      && (writeBehind && dirtyPages > 0 ==> onDirtyList)
    }

    ghost function Dirty(): set<int>
      reads this, mbcb
    {
      if mbcb == null then {} else mbcb.Dirty()
    }

    /** How many pages of the mask the lazy writer may still write in this scan. */
    ghost function Quota(): nat
      reads this, mbcb
    {
      if mbcb == null then 0 else mbcb.pagesToWrite
    }

    ghost function ResumePage(): int
      reads this, mbcb
    {
      if mbcb == null then 0 else mbcb.resumeWritePage
    }

    /** How many bitmaps the ranges have from the zone. */
    ghost function Held(): nat
      reads this, mbcb
    {
      if mbcb == null || !mbcb.grande then 0 else Bitmaps(mbcb.ranges)
    }

    /** How many ranges there are, or will be after promotion. */
    ghost function Slots(): nat
      reads this, mbcb
    {
      if mbcb == null || !mbcb.grande then 3 else |mbcb.ranges|
    }

    ghost predicate IsLarge()
      reads this, mbcb
    {
      mbcb != null && mbcb.grande
    }

    /** A range need not be allocated for the page. */
    ghost predicate HasRoom(page: int)
      reads this, mbcb
    {
      IsLarge() ==> HasRoomFor(mbcb.ranges, page)
    }

    constructor (cc: Globals, writeBehind: bool, sectionPages: int)
      ensures Valid() && Dirty() == {} && this.cc == cc && otherPages == 0 && this.sectionPages == sectionPages && mbcb == null
    {
      this.cc, this.writeBehind, this.sectionPages := cc, writeBehind, sectionPages;
      mbcb, dirtyPages, pagesToWrite, onDirtyList, validDataGoal, otherPages := null, 0, 0, false, 0, 0;
    }

    /** The counter is the size of the set. */
    lemma CounterIsCount()
      requires Valid()
      ensures dirtyPages == |Dirty()| + otherPages
    {
      if mbcb != null { SumIsCount(mbcb.ranges); }
    }

    /** The tail of CcSetDirtyInMask, once the range is known: hints, dirty list, bits and counters. */
    method MarkPages(index: nat, first: int, last: int)
      requires Valid() && mbcb != null && index < |mbcb.ranges| && mbcb.ranges[index].basePage == BaseOf(first)
      requires 0 <= first <= last < PAGE_LIMIT && last - BaseOf(first) < |mbcb.ranges[index].bitmap|
      modifies this`dirtyPages, this`onDirtyList
      modifies mbcb`ranges, mbcb`dirtyPages, mbcb`resumeWritePage, cc`totalDirtyPages
      ensures Valid() && Dirty() == old(Dirty()) + PageRun(first, last + 1) && Held() == old(Held()) && Slots() == old(Slots())
      ensures cc.totalDirtyPages - old(cc.totalDirtyPages) == dirtyPages - old(dirtyPages)
      ensures onDirtyList <==> old(onDirtyList) || old(dirtyPages) == 0
      ensures mbcb.resumeWritePage == if old(dirtyPages) == 0 then first else old(mbcb.resumeWritePage)
    {
      hide RangesOk, Aligned, LargeBitmaps, PageRun, DirtyOf;
      CountIsNonNegative(mbcb);
      if dirtyPages == 0 {
        onDirtyList, mbcb.resumeWritePage := true, first;
      }
      var charged := MarkInRange(mbcb, index, first, last);
      cc.totalDirtyPages := cc.totalDirtyPages + charged;
      dirtyPages := dirtyPages + charged;
    }

    /** Whether the allocations that the call turns out to need succeed: a bitmap from the Vacb level zone on
        each of its two passes, the Mbcb, and a range structure. */
    ghost predicate CanMark(first: int, last: int, zone: (bool, bool), mbcbOk: bool, rangeOk: bool)
      reads this, mbcb
    {
      && (sectionPages > INITIAL_PAGES ==> zone.0)
      && (mbcb == null ==> mbcbOk)
      && (last >= INITIAL_PAGES && (mbcb == null || !mbcb.grande) ==> zone.1)
      && (rangeOk || HasRoom(first))
    }

    /** The first half of CcSetDirtyInMask: allocations, and the switch to the large form. */
    method PrepareMask(first: int, last: int, zone: (bool, bool), mbcbOk: bool) returns (ready: bool, bitmap: Bitmap, taken: int)
      requires Valid() && 0 <= first <= last < sectionPages && BaseOf(first) == BaseOf(last)
      modifies this`mbcb, mbcb
      ensures (old(mbcb) != null ==> mbcb == old(mbcb)) && Quota() == old(Quota())
      ensures Valid() && Dirty() == old(Dirty()) && (mbcb == old(mbcb) || fresh(mbcb))
      ensures taken == Held() - old(Held()) + Count(bitmap) && (!ready ==> bitmap == [])
      ensures ready ==> mbcb != null && (mbcb.grande ==> bitmap == ZERO_BITMAP)
      ensures mbcb != null ==> mbcb.resumeWritePage == if old(mbcb) == null then 0 else old(mbcb.resumeWritePage)
      ensures ready ==> (mbcb.grande || last < INITIAL_PAGES)
      ensures ready <==> (sectionPages > INITIAL_PAGES ==> zone.0) && (old(mbcb) == null ==> mbcbOk) &&
                         (last >= INITIAL_PAGES && (old(mbcb) == null || !old(mbcb.grande)) ==> zone.1)
      ensures ready && old(mbcb != null && mbcb.grande) ==> mbcb == old(mbcb) && mbcb.ranges == old(mbcb.ranges)
      ensures ready && !old(mbcb != null && mbcb.grande) ==> HasRoomFor(mbcb.ranges, first)
      ensures Slots() == old(Slots()) && (old(IsLarge()) ==> IsLarge())
    {
      bitmap, taken := [], 0;
      if sectionPages > INITIAL_PAGES {
        if !zone.0 { return false, [], taken; }
        bitmap, taken := ZERO_BITMAP, 1;
      }
      if mbcb == null {
        if !mbcbOk { return false, [], 0; }       // the bitmap, if any, goes back
        mbcb := new Mbcb();
      }
      if last >= INITIAL_PAGES && !mbcb.grande {
        mbcb.Promote(bitmap);
        assert mbcb.ranges[1].dirtyPages == 0;
        // Back to preallocate another bitmap.
        if !zone.1 { return false, [], taken; }
        bitmap, taken := ZERO_BITMAP, taken + 1;
      }
      ready := true;
      SmallFormHasRoom(first);
    }

    lemma SmallFormHasRoom(page: int)
      requires mbcb != null && mbcb.Valid() && 0 <= page
      ensures !mbcb.grande && page < INITIAL_PAGES ==> HasRoomFor(mbcb.ranges, page)
    {
      if !mbcb.grande && page < INITIAL_PAGES {
        assert mbcb.ranges[0].basePage == 0 == BaseOf(page);
      }
    }

    method SetPagesDirty(first: int, last: int, zone: (bool, bool), mbcbOk: bool, rangeOk: bool)
      returns (marked: bool, taken: int)
      requires Valid() && 0 <= first <= last < sectionPages <= PAGE_LIMIT && BaseOf(first) == BaseOf(last)
      modifies this`dirtyPages, this`onDirtyList, this`mbcb, mbcb, cc`totalDirtyPages
      ensures Valid() && (mbcb == old(mbcb) || fresh(mbcb))
      ensures (old(mbcb) != null ==> mbcb == old(mbcb)) && Quota() == old(Quota())
      ensures marked <==> old(CanMark(first, last, zone, mbcbOk, rangeOk))
      ensures marked ==> Dirty() == old(Dirty()) + PageRun(first, last + 1)
      ensures !marked ==> Dirty() == old(Dirty()) && dirtyPages == old(dirtyPages)
      ensures cc.totalDirtyPages - old(cc.totalDirtyPages) == dirtyPages - old(dirtyPages)
      ensures onDirtyList <==> old(onDirtyList) || (marked && old(dirtyPages) == 0)
      ensures marked ==> mbcb.resumeWritePage == if old(dirtyPages) == 0 then first else old(ResumePage())
      ensures taken == Held() - old(Held())
      ensures Slots() == old(Slots()) + (if marked && !old(HasRoom(first)) then 1 else 0) && (old(IsLarge()) ==> IsLarge())
      ensures marked && last >= INITIAL_PAGES ==> IsLarge()
    {
      hide RangesOk, Aligned, LargeBitmaps, DirtyOf, PageRun, HasRoomFor, IsWindow;
      var ready, bitmap;
      ready, bitmap, taken := PrepareMask(first, last, zone, mbcbOk);
      if !ready {
        return false, taken;
      }
      var range, bitmapLeft := mbcb.FindRangeToDirty(first, bitmap, rangeOk);
      marked := range != -1;
      if marked {
        MarkPages(range, first, last);
      }
      taken := taken - Count(bitmapLeft);         // one that was not needed goes back
    }

    /** CcSetDirtyInMask: adds exactly the pages of the byte range, or nothing at all. `taken` is how many more
        bitmaps it took from the zone than it gave back: those that ranges have. */
    method SetDirtyInMask(offset: int, length: int, zone: (bool, bool), mbcbOk: bool, rangeOk: bool)
      returns (ghost marked: bool, taken: int)
      requires Valid() && offset >= 0 && length > 0
      requires LastPage(offset, length) < sectionPages <= PAGE_LIMIT
      requires BaseOf(FirstPage(offset)) == BaseOf(LastPage(offset, length))
      modifies this`dirtyPages, this`onDirtyList, this`mbcb, this`validDataGoal
      modifies mbcb, cc`totalDirtyPages
      ensures Valid() && (mbcb == old(mbcb) || fresh(mbcb))
      ensures (old(mbcb) != null ==> mbcb == old(mbcb)) && Quota() == old(Quota())
      ensures marked <==> old(CanMark(FirstPage(offset), LastPage(offset, length), zone, mbcbOk, rangeOk))
      ensures marked ==> Dirty() == old(Dirty()) + PageRun(FirstPage(offset), LastPage(offset, length) + 1)
      ensures !marked ==> Dirty() == old(Dirty()) && dirtyPages == old(dirtyPages)
      ensures cc.totalDirtyPages - old(cc.totalDirtyPages) == dirtyPages - old(dirtyPages)
      ensures onDirtyList <==> old(onDirtyList) || (marked && old(dirtyPages) == 0)
      ensures marked ==> mbcb.resumeWritePage == if old(dirtyPages) == 0 then FirstPage(offset) else old(ResumePage())
      ensures taken == Held() - old(Held())
      ensures Slots() >= old(Slots()) && (old(IsLarge()) ==> IsLarge())
      ensures validDataGoal == if marked && offset + length > old(validDataGoal) then offset + length
                               else old(validDataGoal)
    {
      var done;
      done, taken := SetPagesDirty(FirstPage(offset), LastPage(offset, length), zone, mbcbOk, rangeOk);
      if done && offset + length > validDataGoal {
        validDataGoal := offset + length;
      }
      marked := done;
    }

    /** The mask part of CcAcquireByteRangeForWrite, on a stream without Bcbs: finds a run of dirty pages and
        takes it out of the mask. `target` is TargetOffset; a `targetLength` of zero is the lazy writer. */
    method AcquireByteRange(target: Option<int>, targetLength: nat) returns (found: bool, page: int, pages: int)
      requires Valid() && (target.Some? ==> target.value >= 0 && targetLength > 0)
      modifies this`dirtyPages, this`pagesToWrite, this`onDirtyList
      modifies mbcb, cc
      ensures Valid()
      ensures found ==> 1 <= pages <= MAX_WRITE_PAGES && PageRun(page, page + pages) <= old(Dirty())
      ensures found ==> Dirty() == old(Dirty()) - PageRun(page, page + pages)
      ensures found ==> RunIsFull(old(Dirty()), page, pages, BeyondPage(target, targetLength))
      ensures found ==> ResumesAfter(Dirty(), page, pages, old(mbcb.resumeWritePage), mbcb.resumeWritePage, targetLength)
      ensures !found ==> Dirty() == old(Dirty()) && pages == 0
      ensures dirtyPages == old(dirtyPages) - pages && cc.totalDirtyPages == old(cc.totalDirtyPages) - pages
      ensures cc.pagesYetToWrite == Less(old(cc.pagesYetToWrite), pages)
      ensures onDirtyList <==> old(onDirtyList) && !(found && dirtyPages == 0)
      ensures Quota() == Less(old(Quota()), pages) && Slots() == old(Slots()) && IsLarge() == old(IsLarge())
      ensures found ==> pagesToWrite == mbcb.pagesToWrite && CanRemark(mbcb.ranges, mbcb.grande, page, pages)
      ensures targetLength != 0 ==>
                var first, beyond := FromPage(target, targetLength, 0), BeyondPage(target, targetLength);
                if found then first <= page && page + pages <= beyond && NoneIn(old(Dirty()), first, page)
                else NoneIn(old(Dirty()), first, beyond)
      ensures targetLength == 0 ==>
                (found <==> old(mbcb != null && Dirty() != {} && mbcb.pagesToWrite != 0 && WillResume(mbcb)))
      ensures targetLength == 0 && found ==> LazyPlace(old(Dirty()), old(mbcb.resumeWritePage), page)
      ensures targetLength == 0 && !found && old(mbcb != null && Dirty() != {} && mbcb.pagesToWrite != 0) ==>
                WillResume(mbcb) && OnlyTightened(old(mbcb.ranges), mbcb.ranges) &&
                mbcb.resumeWritePage == old(mbcb.resumeWritePage)
    {
      hide RangesOk, Aligned, LargeBitmaps, DirtyOf, WillResume, LazyPlace, OnlyTightened, RunIsFull, ResumesAfter, CanRemark, IsWindow, PageRun, FromPage, BeyondPage;
      MbcbIsClean();
      if mbcb == null || mbcb.dirtyPages == 0 || (mbcb.pagesToWrite == 0 && targetLength == 0) {
        return false, 0, 0;
      }
      found, page, pages := TakeFromMask(mbcb, target, targetLength);
      if !found {
        return false, 0, 0;
      }
      cc.totalDirtyPages, dirtyPages := cc.totalDirtyPages - pages, dirtyPages - pages;
      cc.pagesYetToWrite := Less(cc.pagesYetToWrite, pages);
      if dirtyPages == 0 {
        onDirtyList := false;
      }
      pagesToWrite := mbcb.pagesToWrite;
    }

    /** CcDeleteMbcb: no page of the mask is dirty any more, the counters give back exactly those that were,
        and the zone gets back every large bitmap, zeroed. */
    method DeleteMbcb() returns (returned: seq<Bitmap>)
      requires Valid()
      modifies this`mbcb, this`dirtyPages, mbcb, cc`totalDirtyPages
      ensures Valid() && mbcb == null && dirtyPages == otherPages
      ensures cc.totalDirtyPages == old(cc.totalDirtyPages) - |old(Dirty())|
      ensures returned == seq(old(Held()), _ => ZERO_BITMAP)
    {
      CounterIsCount();
      returned := [];
      if mbcb != null {
        cc.totalDirtyPages, dirtyPages := cc.totalDirtyPages - mbcb.dirtyPages, dirtyPages - mbcb.dirtyPages;
        returned := FreeRanges(mbcb);
        mbcb := null;
      }
    }

    lemma MbcbIsClean()
      requires Valid()
      ensures mbcb != null ==> (mbcb.dirtyPages == 0 <==> Dirty() == {})
    {
      if mbcb != null { SumIsCount(mbcb.ranges); }
    }
  }

  method FreeRanges(m: Mbcb) returns (returned: seq<Bitmap>)
    requires m.Valid()
    modifies m`ranges
    ensures m.ranges == [] && returned == seq(if m.grande then Bitmaps(old(m.ranges)) else 0, _ => ZERO_BITMAP)
  {
    returned := [];
    while m.ranges != []
      invariant EachOk(m.ranges) && (m.grande ==> LargeBitmaps(m.ranges))
      invariant forall i | 0 <= i < |returned| :: returned[i] == ZERO_BITMAP
      invariant if m.grande then |returned| + Bitmaps(m.ranges) == Bitmaps(old(m.ranges)) else returned == []
      decreases |m.ranges|
    {
      var r := m.ranges[0];
      assert RangeOk(r);
      if m.grande && r.bitmap != [] {
        var bitmap := if r.dirtyPages != 0 then ZERO_BITMAP else r.bitmap;
        if r.dirtyPages == 0 { CleanRangeIsZero(r); }
        returned := returned + [bitmap];
      }
      m.ranges := m.ranges[1..];
    }
  }

  lemma PlaceIsInList(rs: seq<BitmapRange>, at: Place)
    requires PlaceOk(rs, at)
    ensures 0 <= at.range < |rs|
  {
  }

  /** A run goes as far as it may: to the largest write, to the end of the target, to the end of the bitmap, or
      to a clean page. */
  ghost predicate RunIsFull(dirty: set<int>, page: int, pages: int, beyond: int) {
    pages == MAX_WRITE_PAGES || page + pages == beyond || IsWindow(page + pages) || page + pages !in dirty
  }

  method TakeFromMask(m: Mbcb, target: Option<int>, targetLength: nat) returns (found: bool, page: int, pages: int)
    requires m.Valid() && m.dirtyPages != 0 && (target.Some? ==> target.value >= 0 && targetLength > 0)
    modifies m`ranges, m`dirtyPages, m`pagesToWrite, m`resumeWritePage
    ensures m.Valid() && |m.ranges| == |old(m.ranges)|
    ensures found ==> 1 <= pages <= MAX_WRITE_PAGES && PageRun(page, page + pages) <= old(m.Dirty())
    ensures found ==> RunIsFull(old(m.Dirty()), page, pages, BeyondPage(target, targetLength))
    ensures found ==> ResumesAfter(m.Dirty(), page, pages, old(m.resumeWritePage), m.resumeWritePage, targetLength)
    ensures found ==> m.Dirty() == old(m.Dirty()) - PageRun(page, page + pages) && CanRemark(m.ranges, m.grande, page, pages)
    ensures !found ==> m.Dirty() == old(m.Dirty()) && pages == 0 && m.resumeWritePage == old(m.resumeWritePage)
    ensures m.dirtyPages == old(m.dirtyPages) - pages && m.pagesToWrite == Less(old(m.pagesToWrite), pages)
    ensures targetLength != 0 ==>
              var first, beyond := FromPage(target, targetLength, 0), BeyondPage(target, targetLength);
              if found then first <= page && page + pages <= beyond && NoneIn(old(m.Dirty()), first, page)
              else NoneIn(old(m.Dirty()), first, beyond)
    ensures targetLength == 0 ==> (found <==> old(WillResume(m)))
    ensures targetLength == 0 && found ==> LazyPlace(old(m.Dirty()), old(m.resumeWritePage), page)
    ensures targetLength == 0 && !found ==> WillResume(m) && OnlyTightened(old(m.ranges), m.ranges)
  {
    hide RangesOk, Aligned, LargeBitmaps, DirtyOf, WillResume, PlaceOk, LazyPlace, OnlyTightened, CoversTarget, NoneIn, RunIsFull, ResumesAfter, CanRemark;
    var at;
    found, at := LocateRun(m, target, targetLength);
    if !found {
      return false, 0, 0;
    }
    PlaceIsInList(m.ranges, at);
    page := PageAt(m.ranges, at);
    pages := TakeAndSettle(m, at, BeyondPage(target, targetLength), targetLength);
  }

  /** Takes the run, then counts it against the scan's quota and moves the resume point. */
  method TakeAndSettle(m: Mbcb, at: Place, beyond: int, targetLength: nat) returns (pages: int)
    requires m.Valid() && PlaceOk(m.ranges, at) && PageAt(m.ranges, at) < beyond
    requires CoversTarget(m.ranges[at.range], at.endWord, beyond)
    modifies m`ranges, m`dirtyPages, m`pagesToWrite, m`resumeWritePage
    ensures m.Valid() && 1 <= pages <= MAX_WRITE_PAGES && |m.ranges| == |old(m.ranges)|
    ensures var page := old(PageAt(m.ranges, at));
            && PageRun(page, page + pages) <= old(m.Dirty()) && page + pages <= beyond
            && m.Dirty() == old(m.Dirty()) - PageRun(page, page + pages)
            && RunIsFull(old(m.Dirty()), page, pages, beyond)
            && ResumesAfter(m.Dirty(), page, pages, old(m.resumeWritePage), m.resumeWritePage, targetLength)
            && CanRemark(m.ranges, m.grande, page, pages)
    ensures m.dirtyPages == old(m.dirtyPages) - pages && m.pagesToWrite == Less(old(m.pagesToWrite), pages)
  {
    hide RangesOk, Aligned, LargeBitmaps, DirtyOf, PlaceOk, CoversTarget, RunIsFull, ResumesAfter, CanRemark, NoneIn, PageRun;
    PlaceIsInList(m.ranges, at);
    var page := PageAt(m.ranges, at);
    pages := TakeRun(m, at, beyond);
    Settle(m, at.range, page, pages, targetLength);
  }

  method Settle(m: Mbcb, index: nat, page: int, pages: int, targetLength: nat)
    requires m.Valid() && index < |m.ranges| && pages > 0 && NoneIn(m.Dirty(), page, page + pages)
    requires 0 <= page && m.ranges[index].basePage == BaseOf(page)
    modifies m`pagesToWrite, m`resumeWritePage
    ensures m.Valid() && m.pagesToWrite == Less(old(m.pagesToWrite), pages)
    ensures ResumesAfter(m.Dirty(), page, pages, old(m.resumeWritePage), m.resumeWritePage, targetLength)
  {
    hide RangesOk, Aligned, LargeBitmaps, DirtyOf;
    m.pagesToWrite := Less(m.pagesToWrite, pages);
    WindowIsClean(m.ranges, index, page);
    if m.ranges[index].dirtyPages == 0 {
      m.resumeWritePage := m.ranges[index].basePage + RANGE_PAGES;
    } else if targetLength == 0 {
      m.resumeWritePage := page + pages;
    }
  }

  /** A run that empties its window moves the resume point to the next window. Otherwise the lazy writer resumes
      behind the run, and an explicit flush leaves the resume point. */
  ghost predicate ResumesAfter(dirty: set<int>, page: int, pages: int, was: int, resume: int, targetLength: nat) {
    resume ==
      if NoneIn(dirty, BaseOf(page), BaseOf(page) + RANGE_PAGES) then BaseOf(page) + RANGE_PAGES
      else if targetLength == 0 then page + pages
      else was
  }

  lemma WindowIsClean(rs: seq<BitmapRange>, index: nat, page: int)
    requires RangesOk(rs) && index < |rs| && rs[index].basePage == BaseOf(page)
    ensures rs[index].dirtyPages == 0 <==> NoneIn(DirtyOf(rs), BaseOf(page), BaseOf(page) + RANGE_PAGES)
  {
    if rs[index].dirtyPages == 0 {
      forall p | p in DirtyOf(rs) ensures !(rs[index].basePage <= p < rs[index].basePage + RANGE_PAGES) {
        DirtyOfIn(rs, p);
        var i :| 0 <= i < |rs| && p in Pages(rs[i]);
        if rs[index].basePage <= p < rs[index].basePage + RANGE_PAGES { OneRangePerPage(rs, i, index, p); }
      }
    } else {
      var p :| p in Pages(rs[index]);
      DirtyOfIn(rs, p);
    }
  }

  lemma BaseOfRange(rs: seq<BitmapRange>, index: nat, page: int)
    requires RangesOk(rs) && Aligned(rs) && index < |rs| && rs[index].dirtyPages != 0
    requires rs[index].basePage <= page < rs[index].basePage + RANGE_PAGES
    ensures rs[index].basePage == BaseOf(page) && 0 <= page
  {
    assert AlignedAt(rs, index) && RangeOk(rs[index]);
    if rs[index].basePage < BaseOf(page) {
      WindowApart(rs[index].basePage, BaseOf(page));
    } else if BaseOf(page) < rs[index].basePage {
      WindowApart(BaseOf(page), rs[index].basePage);
    }
  }

  /** Takes the run that starts at `at` out of its range. */
  method TakeRun(m: Mbcb, at: Place, beyond: int) returns (length: int)
    requires m.Valid() && PlaceOk(m.ranges, at) && PageAt(m.ranges, at) < beyond
    requires CoversTarget(m.ranges[at.range], at.endWord, beyond)
    modifies m`ranges, m`dirtyPages
    ensures m.Valid() && 1 <= length <= MAX_WRITE_PAGES
    ensures |m.ranges| == |old(m.ranges)| && 0 <= old(PageAt(m.ranges, at))
    ensures m.ranges[at.range].basePage == BaseOf(old(PageAt(m.ranges, at)))
    ensures NoneIn(m.Dirty(), old(PageAt(m.ranges, at)), old(PageAt(m.ranges, at)) + length)
    ensures var page := old(PageAt(m.ranges, at));
            && PageRun(page, page + length) <= old(m.Dirty()) && page + length <= beyond
            && m.Dirty() == old(m.Dirty()) - PageRun(page, page + length)
            && RunIsFull(old(m.Dirty()), page, length, beyond) && CanRemark(m.ranges, m.grande, page, length)
    ensures m.dirtyPages == old(m.dirtyPages) - length
  {
    hide RangesOk, RangeOk, Pages, Aligned, LargeBitmaps, RunIsFull, CanRemark, NoneIn, DirtyOf, CoversTarget, PlaceOk;
    PlaceIsInList(m.ranges, at);
    var now;
    now, length := TakenFrom(m.ranges, m.grande, at, beyond);
    m.Replace(at.range, now);
  }

  method TakenFrom(rs: seq<BitmapRange>, grande: bool, at: Place, beyond: int) returns (now: BitmapRange, length: int)
    requires RangesOk(rs) && Aligned(rs) && PlaceOk(rs, at) && PageAt(rs, at) < beyond
    requires !grande ==> |rs| == 1 && rs[0].basePage == 0 && |rs[0].bitmap| == INITIAL_PAGES
    requires CoversTarget(rs[at.range], at.endWord, beyond)
    ensures 1 <= length <= MAX_WRITE_PAGES && 0 <= PageAt(rs, at) && rs[at.range].basePage == BaseOf(PageAt(rs, at))
    ensures RangeOk(now) && now.basePage == rs[at.range].basePage && |now.bitmap| == |rs[at.range].bitmap|
    ensures now.dirtyPages == rs[at.range].dirtyPages - length
    ensures PageAt(rs, at) + length <= beyond
    ensures PageRun(PageAt(rs, at), PageAt(rs, at) + length) <= DirtyOf(rs)
    ensures DirtyOf(rs[at.range := now]) == DirtyOf(rs) - PageRun(PageAt(rs, at), PageAt(rs, at) + length)
    ensures NoneIn(DirtyOf(rs[at.range := now]), PageAt(rs, at), PageAt(rs, at) + length)
    ensures RunIsFull(DirtyOf(rs), PageAt(rs, at), length, beyond)
    ensures CanRemark(rs[at.range := now], grande, PageAt(rs, at), length)
  {
    hide RangeOk, Pages, Sorted, EachOk, Aligned, RunIsFull, CanRemark, NoneIn, DirtyOf, IsWindow, PageRun;
    RangeOfValid(rs, at.range);
    now, length := ReduceRange(rs[at.range], at, beyond);
    TakenRun(rs, grande, at.range, now, PageAt(rs, at), length, beyond);
    BaseOfRange(rs, at.range, PageAt(rs, at));
  }

  lemma TakenRun(rs: seq<BitmapRange>, grande: bool, index: nat, now: BitmapRange, page: int, length: int, beyond: int)
    requires RangesOk(rs) && Aligned(rs) && index < |rs| && rs[index].dirtyPages > 0
    requires !grande ==> rs[index].basePage == 0 && |rs[index].bitmap| == INITIAL_PAGES
    requires RangeOk(now) && now.basePage == rs[index].basePage
    requires Pages(now) == Pages(rs[index]) - PageRun(page, page + length)
    requires PageRun(page, page + length) <= Pages(rs[index])
    requires rs[index].basePage <= page && page + length <= rs[index].basePage + |rs[index].bitmap|
    requires 1 <= length <= MAX_WRITE_PAGES && page + length <= beyond
    requires length < MAX_WRITE_PAGES && page + length < beyond ==> page + length !in Pages(rs[index])
    ensures DirtyOf(rs[index := now]) == DirtyOf(rs) - PageRun(page, page + length)
    ensures PageRun(page, page + length) <= DirtyOf(rs) && NoneIn(DirtyOf(rs[index := now]), page, page + length)
    ensures RunIsFull(DirtyOf(rs), page, length, beyond) && CanRemark(rs[index := now], grande, page, length)
    ensures page + length <= rs[index].basePage + RANGE_PAGES && rs[index].basePage >= 0
  {
    TakenDirty(rs, index, now, PageRun(page, page + length));
    FullInRange(rs, index, page, length, beyond);
    UpdateRange(rs, index, now);
    RunFits(rs[index := now], grande, index, rs[index], page, length);
  }

  /** The Mbcb keeps a range for the pages of a run just taken, and the run does not leave that range: marking
      it again needs neither promotion nor a new range. */
  ghost predicate CanRemark(rs: seq<BitmapRange>, grande: bool, page: int, pages: int) {
    && HasRoomFor(rs, page) && BaseOf(page) == BaseOf(page + pages - 1)
    && 0 <= page && 0 < pages && (!grande ==> page + pages <= INITIAL_PAGES)
  }

  lemma RunFits(rs: seq<BitmapRange>, grande: bool, index: nat, r: BitmapRange, page: int, pages: int)
    requires Aligned(rs) && index < |rs| && 0 < pages && rs[index].basePage == r.basePage < PAGE_LIMIT
    requires 0 <= r.basePage <= page && page + pages <= r.basePage + |r.bitmap| <= r.basePage + RANGE_PAGES
    requires !grande ==> r.basePage == 0 && |r.bitmap| == INITIAL_PAGES
    ensures CanRemark(rs, grande, page, pages)
  {
    assert AlignedAt(rs, index);
    BaseIs(r.basePage, page);
    BaseIs(r.basePage, page + pages - 1);
  }

  lemma FullInRange(rs: seq<BitmapRange>, index: nat, page: int, length: int, beyond: int)
    requires RangesOk(rs) && Aligned(rs) && index < |rs| && rs[index].dirtyPages > 0
    requires rs[index].basePage <= page <= page + length <= rs[index].basePage + |rs[index].bitmap|
    requires length <= MAX_WRITE_PAGES && page + length <= beyond
    requires length < MAX_WRITE_PAGES && page + length < beyond ==> page + length !in Pages(rs[index])
    ensures RunIsFull(DirtyOf(rs), page, length, beyond)
  {
    if length < MAX_WRITE_PAGES && page + length < beyond {
      EndsInRange(rs, index, page + length);
    }
  }

  lemma EndsInRange(rs: seq<BitmapRange>, index: nat, next: int)
    requires RangesOk(rs) && Aligned(rs) && index < |rs| && rs[index].dirtyPages > 0
    requires rs[index].basePage <= next <= rs[index].basePage + |rs[index].bitmap| && next !in Pages(rs[index])
    ensures IsWindow(next) || next !in DirtyOf(rs)
  {
    if next == rs[index].basePage + RANGE_PAGES {
      assert AlignedAt(rs, index);
      var q :| rs[index].basePage == Window(q);
      assert next == Window(q + 1);
    } else if next in DirtyOf(rs) {
      DirtyOfIn(rs, next);
      var i :| 0 <= i < |rs| && next in Pages(rs[i]);
      OneRangePerPage(rs, i, index, next);
    }
  }

  lemma RangeOfValid(rs: seq<BitmapRange>, index: int)
    requires RangesOk(rs) && 0 <= index < |rs|
    ensures rs[index].dirtyPages > 0 ==> rs[index].basePage < PAGE_LIMIT
    ensures RangeOk(rs[index]) && rs[index].dirtyPages >= 0 && rs[index].basePage >= 0
    ensures |rs[index].bitmap| <= RANGE_PAGES
  {
  }

  lemma TakenDirty(rs: seq<BitmapRange>, index: nat, now: BitmapRange, run: set<int>)
    requires RangesOk(rs) && index < |rs| && RangeOk(now) && now.basePage == rs[index].basePage
    requires Pages(now) == Pages(rs[index]) - run && run <= Pages(rs[index])
    ensures DirtyOf(rs[index := now]) == DirtyOf(rs) - run && run <= DirtyOf(rs)
  {
    hide RangesOk, RangeOk, Holds, Aligned;
    UpdateRange(rs, index, now);
    PagesOfRangeAreDirty(rs, index);
  }
}