/** The scan of CcAcquireByteRangeForWrite over the mask: where the next run of dirty pages starts. */
module MaskScan {
  import opened CacheGlobals
  import opened MaskBcb

  /** The part of a ULONG from bit `low` up is zero. */
  predicate WordIsZero(bitmap: Bitmap, word: nat, low: nat)
    requires 32 * word + 32 <= |bitmap|
  {
    forall k | 32 * word + low <= k < 32 * word + 32 :: !bitmap[k]
  }

  /** Scans whole ULONGs for a nonzero one, then that one for its first set bit. */
  method ScanRange(r: BitmapRange, start: nat, endWord: nat) returns (hit: bool, bit: nat)
    requires RangeOk(r) && start / 32 <= endWord && 32 * endWord + 32 <= |r.bitmap|
    ensures hit ==> start <= bit < 32 * endWord + 32 && r.bitmap[bit]
    ensures forall k | start <= k < (if hit then bit else 32 * endWord + 32) :: !r.bitmap[k]
  {
    var word, low := start / 32, start % 32;
    if WordIsZero(r.bitmap, word, low) {
      low, word := 0, word + 1;
      while word <= endWord && WordIsZero(r.bitmap, word, low)
        invariant word <= endWord + 1
        invariant forall k | start <= k < 32 * word :: !r.bitmap[k]
      {
        word := word + 1;
      }
      if word > endWord {
        return false, 0;
      }
    }
    bit := 32 * word + low;
    while !r.bitmap[bit]
      invariant start <= bit < 32 * word + 32
      invariant forall k | start <= k < bit :: !r.bitmap[k]
      invariant exists k | bit <= k < 32 * word + 32 :: r.bitmap[k]
      decreases 32 * word + 32 - bit
    {
      bit := bit + 1;
    }
    hit := true;
  }

  /** On along the list to the next dirty range: an explicit flush stops at the list head, the lazy writer
      wraps around it, possibly back to where it was. */
  method NextDirtyRange(rs: seq<BitmapRange>, from: int, lazy: bool) returns (next: int)
    requires 0 <= from < |rs| && rs[from].dirtyPages != 0
    ensures next == -1 || (0 <= next < |rs| && rs[next].dirtyPages != 0)
    ensures next == -1 ==> !lazy && forall i | from < i < |rs| :: rs[i].dirtyPages == 0
    ensures from < next ==> forall i | from < i < next :: rs[i].dirtyPages == 0
    ensures 0 <= next <= from ==> lazy && forall i | from < i < |rs| :: rs[i].dirtyPages == 0
  {
    next := from + 1;
    var wrapped := false;
    while next == |rs| || rs[next].dirtyPages == 0
      invariant 0 <= next <= |rs| && (wrapped ==> next <= from && lazy)
      invariant !wrapped ==> from < next
      invariant forall i | from < i < (if wrapped then |rs| else next) :: rs[i].dirtyPages == 0
      decreases !wrapped, |rs| - next
    {
      if next == |rs| {
        if !lazy { return -1; }
        next, wrapped := 0, true;
      } else {
        next := next + 1;
      }
    }
  }

  // ----- From bits to the dirty set ----------------------------------------------------------------

  ghost predicate NoneIn(dirty: set<int>, first: int, beyond: int) {
    forall p | p in dirty :: !(first <= p < beyond)
  }

  /** Every dirty range ends before `page`, by its hint. */
  ghost predicate AllBefore(rs: seq<BitmapRange>, page: int) {
    forall i | 0 <= i < |rs| && rs[i].dirtyPages != 0 :: rs[i].basePage + rs[i].lastDirtyPage < page
  }

  ghost predicate BeforeUpTo(rs: seq<BitmapRange>, upTo: int, page: int)
    requires upTo <= |rs|
  {
    forall i | 0 <= i < upTo && rs[i].dirtyPages != 0 :: rs[i].basePage + rs[i].lastDirtyPage < page
  }

  lemma NoneBeyond(rs: seq<BitmapRange>, page: int)
    requires RangesOk(rs) && AllBefore(rs, page)
    ensures forall p | p in DirtyOf(rs) :: p < page
  {
    forall p | p in DirtyOf(rs) ensures p < page {
      DirtyOfIn(rs, p);
      var i :| 0 <= i < |rs| && p in Pages(rs[i]);
      assert rs[i].dirtyPages != 0;
    }
  }

  /** Ranges before `r` end before `page`, and `r` has no set bit from `start` to `bit`. */
  lemma NoneUpTo(rs: seq<BitmapRange>, r: int, page: int, start: int, bit: int)
    requires RangesOk(rs) && 0 <= r < |rs| && rs[r].dirtyPages != 0 && BeforeUpTo(rs, r, page)
    requires 0 <= start && bit <= |rs[r].bitmap|
    requires rs[r].basePage + start <= page || start <= rs[r].firstDirtyPage
    requires forall k | start <= k < bit :: !rs[r].bitmap[k]
    ensures NoneIn(DirtyOf(rs), page, rs[r].basePage + bit)
  {
    forall p | p in DirtyOf(rs) ensures !(page <= p < rs[r].basePage + bit) {
      DirtyOfIn(rs, p);
      var i :| 0 <= i < |rs| && p in Pages(rs[i]);
      assert rs[i].dirtyPages != 0;
    }
  }

  lemma LastWordFits(r: BitmapRange)
    requires RangeOk(r) && r.dirtyPages != 0
    ensures 32 * (r.lastDirtyPage / 32) + 32 <= |r.bitmap|
  {
  }

  // ----- Locating a run ----------------------------------------------------------------------------

  /** Where a scan stands: range, first dirty bit found, the bit it started from, the last ULONG of interest. */
  datatype Place = Place(range: int, bit: int, original: int, endWord: int)

  ghost predicate PlaceOk(rs: seq<BitmapRange>, at: Place) {
    && 0 <= at.range < |rs| && rs[at.range].dirtyPages != 0
    && 0 <= at.original <= at.bit < 32 * at.endWord + 32 <= |rs[at.range].bitmap|
    && rs[at.range].bitmap[at.bit] && rs[at.range].firstDirtyPage <= at.original
    && forall k | at.original <= k < at.bit :: !rs[at.range].bitmap[k]
  }

  function PageAt(rs: seq<BitmapRange>, at: Place): int
    requires 0 <= at.range < |rs|
  {
    rs[at.range].basePage + at.bit
  }

  /** The scan came up empty in the range it started in: carry on in the next dirty one. */
  method NextRangeScan(rs: seq<BitmapRange>, from: int, reached: int, lastTarget: int, lazy: bool)
    returns (found: bool, at: Place)
    requires RangesOk(rs) && 0 <= from < |rs| && rs[from].dirtyPages != 0
    requires reached <= rs[from].basePage + RANGE_PAGES
    requires rs[from].basePage + rs[from].lastDirtyPage < reached || (!lazy && lastTarget < reached)
    ensures found ==> PlaceOk(rs, at) && PageAt(rs, at) in DirtyOf(rs) && reached <= PageAt(rs, at)
    ensures found ==> at.endWord == rs[at.range].lastDirtyPage / 32
    ensures found ==> NoneIn(DirtyOf(rs), reached, PageAt(rs, at))
    ensures !found ==> NoneIn(DirtyOf(rs), reached, lastTarget + 1)
  {
    var next := NextDirtyRange(rs, from, lazy);
    if next == -1 {
      if reached <= lastTarget { AllBeforeReached(rs, from, reached); }
      return false, Place(0, 0, 0, 0);
    }
    var r := rs[next];
    if lastTarget < r.basePage + r.firstDirtyPage || reached > r.basePage + r.lastDirtyPage {
      if reached <= lastTarget { NothingReached(rs, from, next, reached, lastTarget); }
      return false, Place(0, 0, 0, 0);
    }
    var bit := ScanNewRange(r);
    found, at := true, Place(next, bit, r.firstDirtyPage, r.lastDirtyPage / 32);
    NewRangePlace(rs, from, at, reached);
  }

  lemma NewRangePlace(rs: seq<BitmapRange>, from: int, at: Place, reached: int)
    requires RangesOk(rs) && 0 <= from < |rs| && 0 <= at.range < |rs|
    requires rs[from].dirtyPages != 0 && rs[at.range].dirtyPages != 0
    requires rs[from].basePage + rs[from].lastDirtyPage < reached <= rs[from].basePage + RANGE_PAGES
    requires reached <= rs[at.range].basePage + rs[at.range].lastDirtyPage
    requires from < at.range ==> forall i | from < i < at.range :: rs[i].dirtyPages == 0
    requires 0 <= at.bit < |rs[at.range].bitmap| && rs[at.range].bitmap[at.bit]
    requires forall k | 0 <= k < at.bit :: !rs[at.range].bitmap[k]
    ensures PageAt(rs, at) in DirtyOf(rs) && reached <= PageAt(rs, at)
    ensures NoneIn(DirtyOf(rs), reached, PageAt(rs, at))
  {
    assert from < at.range;
    DirtyOfIn(rs, PageAt(rs, at));
    BeforeNext(rs, from, at.range, reached);
    NoneUpTo(rs, at.range, reached, 0, at.bit);
  }

  /** A dirty range scanned from its first hint on always yields a bit. */
  method ScanNewRange(r: BitmapRange) returns (bit: nat)
    requires RangeOk(r) && r.dirtyPages != 0
    ensures r.firstDirtyPage <= bit < 32 * (r.lastDirtyPage / 32) + 32 <= |r.bitmap| && r.bitmap[bit]
    ensures forall k | 0 <= k < bit :: !r.bitmap[k]
  {
    LastWordFits(r);
    ghost var k := SomeBitSet(r);
    var hit;
    hit, bit := ScanRange(r, r.firstDirtyPage - r.firstDirtyPage % 32, r.lastDirtyPage / 32);
    assert hit;
  }

  lemma NothingReached(rs: seq<BitmapRange>, from: int, next: int, reached: int, lastTarget: int)
    requires RangesOk(rs) && 0 <= from < |rs| && rs[from].dirtyPages != 0 && 0 <= next < |rs| && rs[next].dirtyPages != 0
    requires rs[from].basePage + rs[from].lastDirtyPage < reached <= rs[from].basePage + RANGE_PAGES
    requires forall i | from < i < (if next <= from then |rs| else next) :: rs[i].dirtyPages == 0
    requires next <= from || lastTarget < rs[next].basePage + rs[next].firstDirtyPage ||
             reached > rs[next].basePage + rs[next].lastDirtyPage
    ensures NoneIn(DirtyOf(rs), reached, lastTarget + 1)
  {
    if next <= from {
      AllBeforeReached(rs, from, reached);
    } else {
      BeforeNext(rs, from, next, reached);
      NoneUpTo(rs, next, reached, 0, rs[next].firstDirtyPage);
    }
  }

  lemma AllBeforeReached(rs: seq<BitmapRange>, from: int, reached: int)
    requires RangesOk(rs) && 0 <= from < |rs| && rs[from].dirtyPages != 0
    requires rs[from].basePage + rs[from].lastDirtyPage < reached
    requires forall i | from < i < |rs| :: rs[i].dirtyPages == 0
    ensures forall p | p in DirtyOf(rs) :: p < reached
  {
    forall i | 0 <= i < |rs| && rs[i].dirtyPages != 0 ensures rs[i].basePage + rs[i].lastDirtyPage < reached {
      if i < from { assert rs[i].basePage < rs[from].basePage; }
    }
    NoneBeyond(rs, reached);
  }

  lemma BeforeNext(rs: seq<BitmapRange>, from: int, next: int, reached: int)
    requires RangesOk(rs) && 0 <= from < next < |rs| && rs[from].dirtyPages != 0 && rs[next].dirtyPages != 0
    requires rs[from].basePage + rs[from].lastDirtyPage < reached <= rs[from].basePage + RANGE_PAGES
    requires forall i | from < i < next :: rs[i].dirtyPages == 0
    ensures BeforeUpTo(rs, next, reached) && reached <= rs[next].basePage
  {
    forall i | 0 <= i < next && rs[i].dirtyPages != 0 ensures rs[i].basePage + rs[i].lastDirtyPage < reached {
      if i < from { assert rs[i].basePage < rs[from].basePage; }
    }
    assert rs[from].basePage < rs[next].basePage;
  }

  /** First of the pages asked for: the target's first page, else the resume point (lazy) or the start. */
  function FromPage(target: Option<int>, targetLength: nat, resume: int): int {
    if target.Some? then target.value / 4096 else if targetLength == 0 then resume else 0
  }

  function BeyondPage(target: Option<int>, targetLength: nat): int {
    if target.Some? then (target.value + targetLength + 4095) / 4096 else MAXLONGLONG
  }

  /** The range that the scan starts in, the first bit to look at and the last ULONG to look at. */
  method StartOfScan(m: Mbcb, target: Option<int>, targetLength: nat)
    returns (found: bool, range: int, start: int, endWord: int)
    requires m.Valid() && m.dirtyPages != 0
    requires target.Some? ==> target.value >= 0 && targetLength > 0
    ensures found ==> 0 <= range < |m.ranges| && m.ranges[range].dirtyPages != 0
    ensures found ==> m.ranges[range].firstDirtyPage <= start && start / 32 <= endWord
    ensures found ==> 32 * endWord + 32 <= |m.ranges[range].bitmap|
    ensures found ==> CoversTarget(m.ranges[range], endWord, BeyondPage(target, targetLength))
    ensures found ==> var first := FromPage(target, targetLength, m.resumeWritePage);
              Starts(m.ranges, range, start, first) || Wraps(m.ranges, range, start, first)
    ensures found && target.Some? ==> Starts(m.ranges, range, start, target.value / 4096)
    ensures !found ==> target.Some? && NoneIn(m.Dirty(), target.value / 4096, BeyondPage(target, targetLength))
  {
    var first := FromPage(target, targetLength, m.resumeWritePage);
    var lastTarget := MAXLONGLONG;
    range := m.FindRangeToClean(first);
    var r := m.ranges[range];
    LastWordFits(r);
    endWord := r.lastDirtyPage / 32;
    if target.Some? {
      lastTarget := (target.value + targetLength - 1) / 4096;
      assert lastTarget + 1 == BeyondPage(target, targetLength);
      if lastTarget < r.basePage + r.firstDirtyPage || first > r.basePage + r.lastDirtyPage {
        if first > r.basePage + r.lastDirtyPage {
          NoneBeyond(m.ranges, first);
        } else {
          NoneUpTo(m.ranges, range, first, 0, r.firstDirtyPage);
        }
        return false, range, 0, endWord;
      }
      if lastTarget < r.basePage + r.lastDirtyPage {
        endWord := (lastTarget - r.basePage) / 32;
      }
    }
    ghost var from := first;
    if first > r.basePage + r.lastDirtyPage {
      first := r.basePage + r.firstDirtyPage;
    }
    if first < r.basePage + r.firstDirtyPage {
      first := r.basePage + r.firstDirtyPage;
    }
    found, start := true, first - r.basePage;
    assert Starts(m.ranges, range, start, from) || Wraps(m.ranges, range, start, from);
  }

  /** Nothing that is asked for lies beyond the ULONG `endWord` of the range. */
  ghost predicate CoversTarget(r: BitmapRange, endWord: int, beyond: int) {
    r.lastDirtyPage < 32 * endWord + 32 || beyond <= r.basePage + 32 * endWord + 32
  }

  /** The scan starts at `page`, or at the first dirty page hint of the first range that reaches beyond it. */
  ghost predicate Starts(rs: seq<BitmapRange>, range: int, start: int, page: int)
    requires 0 <= range < |rs|
  {
    && BeforeUpTo(rs, range, page) && page <= rs[range].basePage + rs[range].lastDirtyPage
    && rs[range].basePage + start == if page < rs[range].basePage + rs[range].firstDirtyPage
                                     then rs[range].basePage + rs[range].firstDirtyPage else page
  }

  /** Every dirty range ends before `page`, and the scan starts over at the first dirty range. */
  ghost predicate Wraps(rs: seq<BitmapRange>, range: int, start: int, page: int)
    requires 0 <= range < |rs|
  {
    AllBefore(rs, page) && start == rs[range].firstDirtyPage && forall i | 0 <= i < range :: rs[i].dirtyPages == 0
  }

  /** The lazy writer's resuming scan has something to give: a dirty page at or beyond the resume point, or
      hints by which all of them lie before it, so that the scan starts over. */
  ghost predicate WillResume(m: Mbcb)
    reads m
  {
    (exists p | p in m.Dirty() :: m.resumeWritePage <= p) || AllBefore(m.ranges, m.resumeWritePage)
  }

  /** The lazy writer has scanned from the bit `start` of a range to its end for nothing: its last dirty page
      hint comes down to just before. */
  lemma TightenedRange(r: BitmapRange, start: int, endWord: int)
    requires RangeOk(r) && r.dirtyPages != 0
    requires r.firstDirtyPage <= start < |r.bitmap| && r.lastDirtyPage < 32 * endWord + 32 <= |r.bitmap|
    requires forall k | start <= k < 32 * endWord + 32 :: !r.bitmap[k]
    ensures 0 <= r.firstDirtyPage < start
    ensures RangeOk(r.(lastDirtyPage := start - 1)) && Pages(r.(lastDirtyPage := start - 1)) == Pages(r)
  {
    var k := SomeBitSet(r);
    assert Pages(r.(lastDirtyPage := start - 1)) == Pages(r);
  }

  lemma SamePages(rs: seq<BitmapRange>, range: int, r: BitmapRange)
    requires RangesOk(rs) && 0 <= range < |rs| && RangeOk(r)
    requires r.basePage == rs[range].basePage && r.dirtyPages == rs[range].dirtyPages && Pages(r) == Pages(rs[range])
    ensures RangesOk(rs[range := r]) && Sum(rs[range := r]) == Sum(rs) && DirtyOf(rs[range := r]) == DirtyOf(rs)
    ensures Aligned(rs) ==> Aligned(rs[range := r])
  {
    hide RangeOk, RangesOk, Holds, Aligned;
    UpdateRange(rs, range, r);
    PagesOfRangeAreDirty(rs, range);
  }

  lemma PagesOfRangeAreDirty(rs: seq<BitmapRange>, range: int)
    requires 0 <= range < |rs|
    ensures Pages(rs[range]) <= DirtyOf(rs)
  {
    forall p | p in Pages(rs[range]) ensures p in DirtyOf(rs) {
      DirtyOfIn(rs, p);
    }
  }

  lemma DirtyIsBounded(rs: seq<BitmapRange>)
    requires RangesOk(rs)
    ensures forall p | p in DirtyOf(rs) :: 0 <= p < PAGE_LIMIT + RANGE_PAGES
  {
    forall p | p in DirtyOf(rs) ensures 0 <= p < PAGE_LIMIT + RANGE_PAGES {
      DirtyOfIn(rs, p);
      var i :| 0 <= i < |rs| && p in Pages(rs[i]);
      assert RangeOk(rs[i]) && rs[i].dirtyPages > 0;
    }
  }

  /** What the lazy writer's scan answers. */
  ghost predicate LazyPlace(dirty: set<int>, resume: int, page: int) {
    || (resume <= page && NoneIn(dirty, resume, page))
    || ((forall p | p in dirty :: p < resume) && NoneIn(dirty, 0, page))
  }

  /** No set bit from `start` to the end of the ULONG `endWord`. */
  ghost predicate Missed(r: BitmapRange, start: int, endWord: int) {
    && 0 <= start && start / 32 <= endWord && 32 * endWord + 32 <= |r.bitmap|
    && forall k | start <= k < 32 * endWord + 32 :: !r.bitmap[k]
  }

  function Reached(r: BitmapRange, endWord: int): int {
    r.basePage + 32 * endWord + 32
  }

  lemma MissedIsBehindFirst(r: BitmapRange, start: int, endWord: int)
    requires RangeOk(r) && r.dirtyPages != 0 && Missed(r, start, endWord) && r.firstDirtyPage <= start
    requires r.lastDirtyPage < 32 * endWord + 32
    ensures start != r.firstDirtyPage
  {
    var k := SomeBitSet(r);
  }

  lemma NoneUpToReached(rs: seq<BitmapRange>, range: int, start: int, endWord: int, first: int)
    requires RangesOk(rs) && 0 <= range < |rs| && rs[range].dirtyPages != 0
    requires Missed(rs[range], start, endWord) && rs[range].firstDirtyPage <= start
    requires Starts(rs, range, start, first)
    ensures NoneIn(DirtyOf(rs), first, Reached(rs[range], endWord))
  {
    NoneUpTo(rs, range, first, start, 32 * endWord + 32);
  }

  /** The lazy writer missed: it tightens its hint and tries the next dirty range. If it wraps it gives up,
      but then the hints send the next call straight to the first dirty page. */
  method MissedByLazyWriter(m: Mbcb, range: int, start: int, endWord: int) returns (found: bool, at: Place)
    requires m.Valid() && 0 <= range < |m.ranges| && m.ranges[range].dirtyPages != 0
    requires Missed(m.ranges[range], start, endWord) && m.ranges[range].firstDirtyPage <= start
    requires m.ranges[range].lastDirtyPage < 32 * endWord + 32
    requires Starts(m.ranges, range, start, m.resumeWritePage)
    modifies m`ranges
    ensures m.Valid() && m.Dirty() == old(m.Dirty())
    ensures found ==> PlaceOk(m.ranges, at) && PageAt(m.ranges, at) in m.Dirty()
    ensures found ==> at.endWord == m.ranges[at.range].lastDirtyPage / 32
    ensures found ==> m.resumeWritePage <= PageAt(m.ranges, at)
    ensures found ==> NoneIn(m.Dirty(), m.resumeWritePage, PageAt(m.ranges, at))
    ensures !found ==> AllBefore(m.ranges, m.resumeWritePage) && forall p | p in m.Dirty() :: p < m.resumeWritePage
    ensures 0 < start <= old(m.ranges[range].lastDirtyPage)
    ensures m.ranges == old(m.ranges)[range := old(m.ranges[range]).(lastDirtyPage := start - 1)]
  {
    hide Pages, Aligned;
    NoneUpToReached(m.ranges, range, start, endWord, m.resumeWritePage);
    MissedIsBehindFirst(m.ranges[range], start, endWord);
    TightenedRange(m.ranges[range], start, endWord);
    SamePages(m.ranges, range, m.ranges[range].(lastDirtyPage := start - 1));
    var reached := Reached(m.ranges[range], endWord);
    m.ranges := m.ranges[range := m.ranges[range].(lastDirtyPage := start - 1)];
    found, at := NextRangeScan(m.ranges, range, reached, MAXLONGLONG, true);
    if !found {
      DirtyIsBounded(m.ranges);
      LaterRangesAreClean(m.ranges, range, reached);
    }
  }

  lemma PageOfRange(rs: seq<BitmapRange>, j: int) returns (p: int)
    requires RangesOk(rs) && 0 <= j < |rs| && rs[j].dirtyPages != 0
    ensures p in DirtyOf(rs) && rs[j].basePage <= p && rs[j].basePage < PAGE_LIMIT
  {
    var k := SomeBitSet(rs[j]);
    p := rs[j].basePage + k;
    DirtyOfIn(rs, p);
  }

  lemma LaterRangesAreClean(rs: seq<BitmapRange>, range: int, reached: int)
    requires RangesOk(rs) && 0 <= range < |rs|
    requires reached <= rs[range].basePage + RANGE_PAGES && forall p | p in DirtyOf(rs) :: p < reached
    ensures forall j | range < j < |rs| :: rs[j].dirtyPages == 0
  {
    forall j | range < j < |rs| ensures rs[j].dirtyPages == 0 {
      if rs[j].dirtyPages != 0 {
        var p := PageOfRange(rs, j);
      }
    }
  }

  /** Where the next run starts. An explicit flush finds the least dirty page of what it was asked for, the
      lazy writer the next one, cyclically, from the resume point. */
  method LocateRun(m: Mbcb, target: Option<int>, targetLength: nat) returns (found: bool, at: Place)
    requires m.Valid() && m.dirtyPages != 0
    requires target.Some? ==> target.value >= 0 && targetLength > 0
    modifies m`ranges
    ensures m.Valid() && m.Dirty() == old(m.Dirty()) && |m.ranges| == |old(m.ranges)|
    ensures targetLength != 0 ==> m.ranges == old(m.ranges)
    ensures found ==> PlaceOk(m.ranges, at) && PageAt(m.ranges, at) in m.Dirty()
    ensures found ==> PageAt(m.ranges, at) < BeyondPage(target, targetLength)
    ensures found ==> CoversTarget(m.ranges[at.range], at.endWord, BeyondPage(target, targetLength))
    ensures targetLength != 0 ==>
              var first := FromPage(target, targetLength, m.resumeWritePage);
              if found then first <= PageAt(m.ranges, at) && NoneIn(m.Dirty(), first, PageAt(m.ranges, at))
              else NoneIn(m.Dirty(), first, BeyondPage(target, targetLength))
    ensures targetLength == 0 ==> (found <==> old(WillResume(m)))
    ensures targetLength == 0 && found ==> LazyPlace(m.Dirty(), m.resumeWritePage, PageAt(m.ranges, at))
    ensures targetLength == 0 && !found ==> WillResume(m) && OnlyTightened(old(m.ranges), m.ranges)
  {
    var beyond := BeyondPage(target, targetLength);
    ghost var first := FromPage(target, targetLength, m.resumeWritePage);
    var ok, range, start, endWord := StartOfScan(m, target, targetLength);
    if !ok {
      return false, Place(0, 0, 0, 0);
    }
    DirtyIsBounded(m.ranges);
    if targetLength == 0 {
      found, at := LocateForLazyWriter(m, range, start, endWord);
    } else {
      found, at := LocateForFlush(m.ranges, range, start, endWord, first, beyond);
    }
  }

  method LocateForFlush(rs: seq<BitmapRange>, range: int, start: int, endWord: int, ghost first: int, beyond: int)
    returns (found: bool, at: Place)
    requires RangesOk(rs) && 0 <= range < |rs| && rs[range].dirtyPages != 0 && first >= 0
    requires rs[range].firstDirtyPage <= start && start / 32 <= endWord
    requires 32 * endWord + 32 <= |rs[range].bitmap| && CoversTarget(rs[range], endWord, beyond)
    requires Starts(rs, range, start, first)
    ensures found ==> PlaceOk(rs, at) && PageAt(rs, at) in DirtyOf(rs)
    ensures found ==> PageAt(rs, at) < beyond && CoversTarget(rs[at.range], at.endWord, beyond)
    ensures if found then first <= PageAt(rs, at) && NoneIn(DirtyOf(rs), first, PageAt(rs, at))
            else NoneIn(DirtyOf(rs), first, beyond)
  {
    var hit, bit := ScanRange(rs[range], start, endWord);
    if hit {
      at := Place(range, bit, start, endWord);
      HitPlace(rs, at, first);
      found := PageAt(rs, at) < beyond;
    } else {
      found, at := MissedByFlush(rs, range, start, endWord, first, beyond);
    }
  }

  method LocateForLazyWriter(m: Mbcb, range: int, start: int, endWord: int) returns (found: bool, at: Place)
    requires m.Valid() && 0 <= range < |m.ranges| && m.ranges[range].dirtyPages != 0
    requires m.ranges[range].firstDirtyPage <= start && start / 32 <= endWord
    requires m.ranges[range].lastDirtyPage < 32 * endWord + 32 <= |m.ranges[range].bitmap|
    requires Starts(m.ranges, range, start, m.resumeWritePage) || Wraps(m.ranges, range, start, m.resumeWritePage)
    modifies m`ranges
    ensures m.Valid() && m.Dirty() == old(m.Dirty()) && |m.ranges| == |old(m.ranges)|
    ensures found ==> PlaceOk(m.ranges, at) && PageAt(m.ranges, at) in m.Dirty()
    ensures found ==> m.ranges[at.range].lastDirtyPage < 32 * at.endWord + 32
    ensures found <==> old(WillResume(m))
    ensures found ==> LazyPlace(m.Dirty(), m.resumeWritePage, PageAt(m.ranges, at))
    ensures !found ==> WillResume(m) && OnlyTightened(old(m.ranges), m.ranges)
  {
    hide Aligned, LargeBitmaps, DirtyOf;
    var hit, bit := ScanRange(m.ranges[range], start, endWord);
    if hit {
      found, at := true, Place(range, bit, start, endWord);
      HitPlace(m.ranges, at, m.resumeWritePage);
    } else {
      NotWrapped(m.ranges, range, start, endWord, m.resumeWritePage);
      ReachesBeyond(m.ranges, range, m.resumeWritePage);
      found, at := MissedByLazyWriter(m, range, start, endWord);
    }
  }

  lemma ReachesBeyond(rs: seq<BitmapRange>, range: int, page: int)
    requires 0 <= range < |rs| && rs[range].dirtyPages != 0 && page <= rs[range].basePage + rs[range].lastDirtyPage
    ensures !AllBefore(rs, page)
  {
  }

  /** An explicit flush missed: it tries the next dirty range, as far as its target goes. */
  method MissedByFlush(rs: seq<BitmapRange>, range: int, start: int, endWord: int, ghost first: int, beyond: int)
    returns (found: bool, at: Place)
    requires RangesOk(rs) && 0 <= range < |rs| && rs[range].dirtyPages != 0
    requires Missed(rs[range], start, endWord) && rs[range].firstDirtyPage <= start
    requires CoversTarget(rs[range], endWord, beyond) && Starts(rs, range, start, first)
    ensures found ==> PlaceOk(rs, at) && PageAt(rs, at) in DirtyOf(rs)
    ensures found ==> PageAt(rs, at) < beyond && CoversTarget(rs[at.range], at.endWord, beyond)
    ensures if found then first <= PageAt(rs, at) && NoneIn(DirtyOf(rs), first, PageAt(rs, at))
            else NoneIn(DirtyOf(rs), first, beyond)
  {
    NoneUpToReached(rs, range, start, endWord, first);
    found, at := NextRangeScan(rs, range, Reached(rs[range], endWord), beyond - 1, false);
    if found && PageAt(rs, at) >= beyond { found := false; }
  }

  /** One range's last dirty page hint came down, but not below 0, and nothing else changed. */
  ghost predicate OnlyTightened(was: seq<BitmapRange>, now: seq<BitmapRange>) {
    exists r, last | 0 <= r < |was| && 0 <= last < was[r].lastDirtyPage ::
      now == was[r := was[r].(lastDirtyPage := last)]
  }

  lemma PlaceIsDirty(rs: seq<BitmapRange>, at: Place)
    requires RangesOk(rs) && PlaceOk(rs, at)
    ensures 0 <= at.range < |rs| && PageAt(rs, at) in Pages(rs[at.range]) && PageAt(rs, at) in DirtyOf(rs)
  {
    hide RangesOk, DirtyOf;
    PagesOfRangeAreDirty(rs, at.range);
    assert Holds(rs[at.range], PageAt(rs, at));
  }

  lemma HitPlace(rs: seq<BitmapRange>, at: Place, first: int)
    requires RangesOk(rs) && PlaceOk(rs, at) && first >= 0
    requires Starts(rs, at.range, at.original, first) || Wraps(rs, at.range, at.original, first)
    ensures PageAt(rs, at) in DirtyOf(rs)
    ensures Starts(rs, at.range, at.original, first) ==>
              first <= PageAt(rs, at) && NoneIn(DirtyOf(rs), first, PageAt(rs, at))
    ensures Wraps(rs, at.range, at.original, first) ==> LazyPlace(DirtyOf(rs), first, PageAt(rs, at))
  {
    hide RangesOk, DirtyOf, Pages;
    PlaceIsDirty(rs, at);
    if Starts(rs, at.range, at.original, first) {
      NoneUpTo(rs, at.range, first, at.original, at.bit);
    } else {
      NoneBeyond(rs, first);
      NoneUpTo(rs, at.range, 0, at.original, at.bit);
    }
  }

  /** A scan that wrapped starts at the first dirty page, so it cannot miss. */
  lemma NotWrapped(rs: seq<BitmapRange>, range: int, start: int, endWord: int, first: int)
    requires RangesOk(rs) && 0 <= range < |rs| && rs[range].dirtyPages != 0 && Missed(rs[range], start, endWord)
    requires Starts(rs, range, start, first) ||
             (Wraps(rs, range, start, first) && rs[range].lastDirtyPage < 32 * endWord + 32)
    ensures Starts(rs, range, start, first)
  {
    var k := SomeBitSet(rs[range]);
  }
}
