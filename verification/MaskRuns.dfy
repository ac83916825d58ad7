/** Setting and clearing runs of bits in one bitmap range, as CcSetDirtyInMask and
    CcAcquireByteRangeForWrite do ULONG by ULONG. */
module MaskRuns {
  import opened MaskBcb
  import opened MaskScan

  const MAX_WRITE_PAGES := 16                      // MAX_WRITE_BEHIND / PAGE_SIZE

  /** The hints of a range widened to take in the pages `first` to `last`. */
  function Widened(r: BitmapRange, first: int, last: int): BitmapRange {
    r.(firstDirtyPage := if first < r.basePage + r.firstDirtyPage then first - r.basePage else r.firstDirtyPage,
       lastDirtyPage := if last > r.basePage + r.lastDirtyPage then last - r.basePage else r.lastDirtyPage)
  }

  /** Each hint stays, or moves out to its end of the run and no further. */
  ghost predicate HintsWiden(r: BitmapRange, marked: BitmapRange, first: int, last: int) {
    && marked.firstDirtyPage <= first - r.basePage && marked.firstDirtyPage <= r.firstDirtyPage
    && marked.firstDirtyPage in {first - r.basePage, r.firstDirtyPage}
    && last - r.basePage <= marked.lastDirtyPage && r.lastDirtyPage <= marked.lastDirtyPage
    && marked.lastDirtyPage in {last - r.basePage, r.lastDirtyPage}
  }

  /** Sets the bits of the pages `first` to `last` and charges the range for those that were clear. */
  method SetRun(r: BitmapRange, first: int, last: int) returns (marked: BitmapRange)
    requires RangeOk(r) && IsWindow(r.basePage) && r.basePage < PAGE_LIMIT
    requires r.basePage <= first <= last < r.basePage + |r.bitmap|
    ensures RangeOk(marked) && marked.basePage == r.basePage && |marked.bitmap| == |r.bitmap|
    ensures Pages(marked) == Pages(r) + PageRun(first, last + 1)
    ensures HintsWiden(r, marked, first, last)
  {
    marked := Widened(r, first, last);
    SameBitmapSamePages(marked, r);
    var word, low, page := (first - r.basePage) / 32, first % 32, first;
    SameBit(r.basePage, first);
    while page <= last
      invariant first <= page <= last + 1
      invariant 0 <= low < 32 && 32 * word + low == page - r.basePage
      invariant MarkedTo(r, marked, first, last, page) && marked.dirtyPages == |Pages(marked)|
    {
      MarkStep(r, marked, first, last, page);
      if !marked.bitmap[32 * word + low] {
        marked := Charged(marked, 32 * word + low);
      }
      low := low + 1;
      if low == 32 {
        word, low := word + 1, 0;
      }
      page := page + 1;
    }
    MarkedPages(r, marked, first, last);
  }

  /** The first Mask is built from the page number, which works because windows start on ULONG bounds. */
  lemma SameBit(base: int, page: int)
    requires IsWindow(base) && base <= page
    ensures 32 * ((page - base) / 32) + page % 32 == page - base
  {
    var q :| base == Window(q);
    assert base == 32 * (128 * q);
  }

  function Charged(r: BitmapRange, k: int): BitmapRange
    requires 0 <= k < |r.bitmap|
  {
    r.(bitmap := r.bitmap[k := true], dirtyPages := r.dirtyPages + 1)
  }

  lemma MarkStep(r: BitmapRange, marked: BitmapRange, first: int, last: int, page: int)
    requires MarkedTo(r, marked, first, last, page) && marked.dirtyPages == |Pages(marked)|
    requires r.basePage <= first <= page <= last < r.basePage + |r.bitmap|
    ensures marked.bitmap[page - r.basePage] ==> MarkedTo(r, marked, first, last, page + 1)
    ensures !marked.bitmap[page - r.basePage] ==>
              var now := Charged(marked, page - r.basePage);
              MarkedTo(r, now, first, last, page + 1) && now.dirtyPages == |Pages(now)|
  {
    var k := page - r.basePage;
    if !marked.bitmap[k] {
      SetBit(marked, k);
      SameBitmapSamePages(Charged(marked, k), marked.(bitmap := marked.bitmap[k := true]));
    }
  }

  /** The hints are widened for the whole run, the bits are set up to `page`. */
  ghost predicate MarkedTo(r: BitmapRange, marked: BitmapRange, first: int, last: int, page: int) {
    && marked == Widened(r, first, last).(bitmap := marked.bitmap, dirtyPages := marked.dirtyPages)
    && |marked.bitmap| == |r.bitmap|
    && forall k | 0 <= k < |r.bitmap| :: marked.bitmap[k] == (r.bitmap[k] || first - r.basePage <= k < page - r.basePage)
  }

  lemma MarkedPages(r: BitmapRange, marked: BitmapRange, first: int, last: int)
    requires RangeOk(r) && r.basePage < PAGE_LIMIT && r.basePage <= first <= last < r.basePage + |r.bitmap|
    requires MarkedTo(r, marked, first, last, last + 1) && marked.dirtyPages == |Pages(marked)|
    ensures RangeOk(marked) && Pages(marked) == Pages(r) + PageRun(first, last + 1)
  {
    forall p ensures p in Pages(marked) <==> p in Pages(r) || first <= p <= last {
      if r.basePage <= p < r.basePage + |r.bitmap| {
        assert marked.bitmap[p - r.basePage] == (r.bitmap[p - r.basePage] || first <= p <= last);
      }
    }
    assert first in Pages(marked);
  }

  /** `length` set bits from `bit` on are gone, and nothing else. */
  ghost predicate IsCleared(r: BitmapRange, cleared: BitmapRange, bit: int, length: int) {
    && cleared == r.(bitmap := cleared.bitmap) && |cleared.bitmap| == |r.bitmap| && 0 <= bit && bit + length <= |r.bitmap|
    && (forall k | bit <= k < bit + length :: r.bitmap[k])
    && (forall k | 0 <= k < |r.bitmap| :: cleared.bitmap[k] == (r.bitmap[k] && !(bit <= k < bit + length)))
  }

  /** Clears the run of set bits at `at`, up to the largest write, the page `beyond` and the last ULONG. */
  method ClearRun(r: BitmapRange, bit: int, beyond: int, endWord: int) returns (cleared: BitmapRange, length: int)
    requires 0 <= bit < 32 * endWord + 32 <= |r.bitmap| && r.bitmap[bit] && r.basePage + bit < beyond
    ensures IsCleared(r, cleared, bit, length)
    ensures 1 <= length <= MAX_WRITE_PAGES && bit + length <= 32 * endWord + 32 && r.basePage + bit + length <= beyond
    ensures length < MAX_WRITE_PAGES && bit + length < 32 * endWord + 32 && r.basePage + bit + length < beyond ==>
              !r.bitmap[bit + length]
  {
    cleared, length := r, 0;
    var word, low := bit / 32, bit % 32;
    while cleared.bitmap[32 * word + low] && length < MAX_WRITE_PAGES && r.basePage + bit + length < beyond
      invariant 0 <= length <= MAX_WRITE_PAGES && 0 <= low < 32 && word <= endWord
      invariant 32 * word + low == bit + length && r.basePage + bit + length <= beyond
      invariant IsCleared(r, cleared, bit, length)
      decreases MAX_WRITE_PAGES - length
    {
      cleared := cleared.(bitmap := cleared.bitmap[32 * word + low := false]);
      length, low := length + 1, low + 1;
      if low == 32 {
        word, low := word + 1, 0;
        if word > endWord { break; }
      }
    }
  }

  /** The range after a run was taken out of it: counter reduced, hints reset or advanced. */
  function Reduced(cleared: BitmapRange, bit: int, length: int, original: int): BitmapRange {
    var r := cleared.(dirtyPages := cleared.dirtyPages - length);
    if r.dirtyPages == 0 then r.(firstDirtyPage := MAXULONG, lastDirtyPage := 0)
    else if r.firstDirtyPage == original then r.(firstDirtyPage := bit + length)
    else r
  }

  lemma ClearedPages(r: BitmapRange, cleared: BitmapRange, bit: int, length: int)
    requires 0 <= bit && 0 <= length && IsCleared(r, cleared, bit, length)
    ensures PageRun(r.basePage + bit, r.basePage + bit + length) <= Pages(r)
    ensures Pages(cleared) == Pages(r) - PageRun(r.basePage + bit, r.basePage + bit + length)
    ensures |Pages(cleared)| == |Pages(r)| - length
  {
    var run := PageRun(r.basePage + bit, r.basePage + bit + length);
    forall p | p in run ensures p in Pages(r) {
      assert r.bitmap[p - r.basePage];
    }
  }

  lemma NoPagesNoBits(r: BitmapRange)
    requires |Pages(r)| == 0
    ensures forall k | 0 <= k < |r.bitmap| :: !r.bitmap[k]
  {
    assert Pages(r) == {};
    forall k | 0 <= k < |r.bitmap| ensures !r.bitmap[k] {
      assert r.basePage + k !in Pages(r);
    }
  }

  lemma ReducedIsOk(r: BitmapRange, cleared: BitmapRange, bit: int, length: int, original: int)
    requires RangeOk(r) && 0 <= original <= bit && 0 < length && IsCleared(r, cleared, bit, length)
    requires r.dirtyPages > 0 && r.firstDirtyPage <= original && forall k | original <= k < bit :: !r.bitmap[k]
    ensures var now := Reduced(cleared, bit, length, original);
            RangeOk(now) && Pages(now) == Pages(r) - PageRun(r.basePage + bit, r.basePage + bit + length)
    ensures PageRun(r.basePage + bit, r.basePage + bit + length) <= Pages(r)
  {
    ClearedPages(r, cleared, bit, length);
    var now := Reduced(cleared, bit, length, original);
    SameBitmapSamePages(now, cleared);
    if now.dirtyPages > 0 {
      HintsStillHold(r, now, bit, length, original);
    } else {
      NoPagesNoBits(now);
    }
  }

  lemma HintsStillHold(r: BitmapRange, now: BitmapRange, bit: int, length: int, original: int)
    requires RangeOk(r) && 0 <= original <= bit && 0 < length && bit + length <= |r.bitmap|
    requires r.firstDirtyPage <= original && forall k | original <= k < bit :: !r.bitmap[k]
    requires |now.bitmap| == |r.bitmap| && now.lastDirtyPage == r.lastDirtyPage && |Pages(now)| > 0
    requires now.firstDirtyPage == if r.firstDirtyPage == original then bit + length else r.firstDirtyPage
    requires forall k | 0 <= k < |r.bitmap| :: now.bitmap[k] == (r.bitmap[k] && !(bit <= k < bit + length))
    ensures forall k | 0 <= k < |now.bitmap| && now.bitmap[k] :: now.firstDirtyPage <= k <= now.lastDirtyPage
    ensures now.firstDirtyPage <= now.lastDirtyPage
  {
    assert Pages(now) != {};
    var p :| p in Pages(now);
    assert now.bitmap[p - now.basePage];
  }

  /** Clears a run of the range and settles its counter and hints. */
  method ReduceRange(r: BitmapRange, at: Place, beyond: int) returns (now: BitmapRange, length: int)
    requires RangeOk(r) && r.dirtyPages > 0 && r.firstDirtyPage <= at.original
    requires 0 <= at.original <= at.bit < 32 * at.endWord + 32 <= |r.bitmap| && r.bitmap[at.bit]
    requires forall k | at.original <= k < at.bit :: !r.bitmap[k]
    requires r.basePage + at.bit < beyond && CoversTarget(r, at.endWord, beyond)
    ensures 1 <= length <= MAX_WRITE_PAGES && r.basePage + at.bit + length <= beyond
    ensures RangeOk(now) && now.basePage == r.basePage && |now.bitmap| == |r.bitmap|
    ensures now.dirtyPages == r.dirtyPages - length
    ensures Pages(now) == Pages(r) - PageRun(r.basePage + at.bit, r.basePage + at.bit + length)
    ensures PageRun(r.basePage + at.bit, r.basePage + at.bit + length) <= Pages(r)
    ensures at.bit + length <= |r.bitmap|
    ensures length < MAX_WRITE_PAGES && r.basePage + at.bit + length < beyond ==>
              r.basePage + at.bit + length !in Pages(r)
  {
    hide RangeOk, Pages, IsCleared, PageRun, Reduced, CoversTarget;
    var cleared;
    cleared, length := ClearRun(r, at.bit, beyond, at.endWord);
    ReducedIsOk(r, cleared, at.bit, length, at.original);
    RunEnds(r, at.bit + length, at.endWord, beyond);
    now := Reduced(cleared, at.bit, length, at.original);
    SameShape(r, cleared, at.bit, length, at.original);
  }

  lemma SameShape(r: BitmapRange, cleared: BitmapRange, bit: int, length: int, original: int)
    requires IsCleared(r, cleared, bit, length)
    ensures var now := Reduced(cleared, bit, length, original);
            now.basePage == r.basePage && |now.bitmap| == |r.bitmap| && now.dirtyPages == r.dirtyPages - length
    ensures bit + length <= |r.bitmap|
  {
  }

  lemma RunEnds(r: BitmapRange, k: int, endWord: int, beyond: int)
    requires RangeOk(r) && 0 <= k <= 32 * endWord + 32 <= |r.bitmap| && CoversTarget(r, endWord, beyond)
    ensures r.basePage + k < beyond && k == 32 * endWord + 32 ==> r.basePage + k !in Pages(r)
    ensures k < 32 * endWord + 32 ==> (r.bitmap[k] <==> r.basePage + k in Pages(r))
  {
  }
}
