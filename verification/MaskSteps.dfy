/**
 The steps of `NoLoss` that touch the set of dirty pages, done by the routines on the mask: the set stays the one
 that the mask describes, and whether a mark is set is decided by the allocations that CcSetDirtyInMask needs.
 */
module MaskSteps {
  import opened CacheGlobals
  import opened MaskBcb
  import opened MaskScan
  import opened MaskStream
  import opened FlushCache
  import NoLoss

  /** The mask describes the dirty pages of the state. */
  ghost predicate Shows(s: SharedCacheMap, st: NoLoss.State)
    reads s, s.mbcb
  {
    && s.Valid() && NoLoss.Shape(st) && |st.cache| == s.sectionPages <= PAGE_LIMIT
    && forall p: int :: p in s.Dirty() <==> p >= 0 && p in st.dirty
  }

  /** A page drops out of sight silently with this mark if and only if the mark fails, the page differs from the
      disk, and nobody else answers for it. */
  ghost predicate DropsOne(st: NoLoss.State, a: NoLoss.Action)
    requires NoLoss.Shape(st) && NoLoss.Possible(st, a)
  {
    exists p | p in NoLoss.ToMark(st, a) :: NoLoss.Differs(st, p) && NoLoss.OnlyMarkerCovers(st, a, p)
  }

  lemma SpanIsRun(first: nat, beyond: nat)
    ensures forall p: int :: p in PageRun(first, beyond) <==> p >= 0 && p in NoLoss.Span(first, beyond)
  {
  }

  lemma ShowsInSection(s: SharedCacheMap, st: NoLoss.State)
    requires Shows(s, st)
    ensures s.Valid() && InSection(s) && s.sectionPages == |st.cache| && NoLoss.Shape(st)
  {
  }

  /** The set that the mask describes. */
  ghost predicate IsDirty(dirty: set<int>, st: NoLoss.State) {
    NoLoss.Shape(st) && |st.cache| <= PAGE_LIMIT && forall p: int :: p in dirty <==> p >= 0 && p in st.dirty
  }

  lemma ShownBy(s: SharedCacheMap, st: NoLoss.State)
    requires s.Valid() && |st.cache| == s.sectionPages
    ensures IsDirty(s.Dirty(), st) <==> Shows(s, st)
  {
  }

  lemma Marked(st: NoLoss.State, a: NoLoss.Action, was: set<int>, now: set<int>, first: nat, beyond: nat, marked: bool)
    requires IsDirty(was, st) && NoLoss.Possible(st, a) && (a.Mark? || a.Release?)
    requires NoLoss.ToMark(st, a) == if marked then NoLoss.Span(first, beyond) else {}
    requires now == was + (if marked && a.ok then PageRun(first, beyond) else {})
    ensures IsDirty(now, NoLoss.After(st, a)) && |NoLoss.After(st, a).cache| == |st.cache|
  {
    hide NoLoss.Shape, NoLoss.Possible, NoLoss.After, NoLoss.ToMark;
    SpanIsRun(first, beyond);
    NoLoss.StepKeepsShape(st, a);
    AfterMark(st, a);
  }

  lemma AfterMark(st: NoLoss.State, a: NoLoss.Action)
    requires NoLoss.Shape(st) && NoLoss.Possible(st, a) && (a.Mark? || a.Release?)
    ensures NoLoss.After(st, a).cache == st.cache
    ensures NoLoss.After(st, a).dirty == st.dirty + if a.ok then NoLoss.ToMark(st, a) else {}
  {
  }

  lemma TrackedUnless(st: NoLoss.State, a: NoLoss.Action)
    requires NoLoss.Shape(st) && NoLoss.Possible(st, a) && (a.Mark? || a.Release?)
    ensures NoLoss.Tracked(st) ==> (NoLoss.Tracked(NoLoss.After(st, a)) <==> a.ok || !DropsOne(st, a))
  {
    hide NoLoss.After, NoLoss.Possible, NoLoss.Tracked, NoLoss.OnlyMarkerCovers, NoLoss.Differs, NoLoss.ToMark;
    if NoLoss.Tracked(st) { NoLoss.DropsSilentlyIff(st, a); }
  }

  lemma Acquired(st: NoLoss.State, f: nat, was: set<int>, now: set<int>, first: nat, beyond: nat)
    requires IsDirty(was, st) && f < |st.flushers| && st.flushers[f].Looking? && first < beyond
    requires PageRun(first, beyond) <= was && now == was - PageRun(first, beyond)
    ensures var a := NoLoss.Acquire(f, first, beyond);
            NoLoss.Possible(st, a) && IsDirty(now, NoLoss.After(st, a)) && |NoLoss.After(st, a).cache| == |st.cache|
  {
    SpanIsRun(first, beyond);
    NoLoss.StepKeepsShape(st, NoLoss.Acquire(f, first, beyond));
  }

  /** CcSetDirtyInMask by a writer: the step `Mark`, which succeeds exactly if the allocations do. */
  method MarkStep(s: SharedCacheMap, first: nat, last: nat, zone: (bool, bool), mbcbOk: bool, rangeOk: bool,
                  ghost st: NoLoss.State, ghost w: nat)
    returns (ok: bool, ghost now: NoLoss.State)
    requires Shows(s, st) && w < |st.writers| && st.writers[w] == NoLoss.Storing(first, last, last) && BaseOf(first) == BaseOf(last)
    modifies s`dirtyPages, s`onDirtyList, s`mbcb, s.mbcb, s.cc`totalDirtyPages
    ensures ok <==> old(s.CanMark(first, last, zone, mbcbOk, rangeOk))
    ensures NoLoss.Possible(st, NoLoss.Mark(w, ok)) && now == NoLoss.After(st, NoLoss.Mark(w, ok)) && Shows(s, now)
    ensures NoLoss.Tracked(st) ==> (NoLoss.Tracked(now) <==> ok || !DropsOne(st, NoLoss.Mark(w, ok)))
  {
    hide RangesOk, Aligned, LargeBitmaps, DirtyOf, IsDirty, Shows, PageRun, BaseOf, HasRoomFor, DropsOne;
    hide NoLoss.After, NoLoss.Tracked, NoLoss.Possible, NoLoss.ToMark, NoLoss.Shape;
    ghost var was := s.Dirty();
    ShowsInSection(s, st);
    ShownBy(s, st);
    SectionLimit(s);
    MayMark(st, w);
    var taken;
    ok, taken := s.SetPagesDirty(first, last, zone, mbcbOk, rangeOk);
    now := NoLoss.After(st, NoLoss.Mark(w, ok));
    Marked(st, NoLoss.Mark(w, ok), was, s.Dirty(), first, last + 1, true);
    TrackedUnless(st, NoLoss.Mark(w, ok));
    ShownBy(s, now);
  }

  lemma MayMark(st: NoLoss.State, w: nat)
    requires NoLoss.Shape(st) && w < |st.writers| && st.writers[w].Storing? && st.writers[w].page == st.writers[w].last
    ensures st.writers[w].first <= st.writers[w].last < |st.cache|
    ensures forall ok :: NoLoss.Possible(st, NoLoss.Mark(w, ok)) &&
                         NoLoss.ToMark(st, NoLoss.Mark(w, ok)) == NoLoss.Span(st.writers[w].first, st.writers[w].last + 1)
  {
    assert NoLoss.WriterInRange(st.writers[w], |st.cache|);
  }

  /** CcReleaseByteRangeFromWrite: the step `Release`, which succeeds exactly if the run need not, or can, be marked
      again. */
  method ReleaseStep(s: SharedCacheMap, run: FlushCache.Run, remark: bool, zoneOk: bool, poolOk: bool,
                     ghost st: NoLoss.State, ghost f: nat)
    returns (ghost ok: bool, ghost now: NoLoss.State)
    requires Shows(s, st) && IsRunOf(s, run)
    requires f < |st.flushers| && st.flushers[f] == NoLoss.Releasing(run.page, run.page + run.pages, remark)
    modifies s`dirtyPages, s`onDirtyList, s`mbcb, s`validDataGoal, s.mbcb, s.cc`totalDirtyPages
    ensures ok <==> !remark || old(Remarks(s, run, zoneOk, poolOk))
    ensures NoLoss.Possible(st, NoLoss.Release(f, ok)) && now == NoLoss.After(st, NoLoss.Release(f, ok)) && Shows(s, now)
    ensures NoLoss.Tracked(st) ==> (NoLoss.Tracked(now) <==> ok || !DropsOne(st, NoLoss.Release(f, ok)))
  {
    hide RangesOk, Aligned, LargeBitmaps, DirtyOf, IsDirty, NoLoss.After, NoLoss.Tracked, DropsOne, Shows, PageRun, PagesOf, Within;
    ShowsInSection(s, st);
    ShownBy(s, st);
    RunIs(run);
    ghost var was, can := s.Dirty(), Remarks(s, run, zoneOk, poolOk);
    ghost var lost := ReleaseRun(s, run, remark, zoneOk, poolOk);
    ok := !remark || can;
    now := NoLoss.After(st, NoLoss.Release(f, ok));
    Relost(PagesOf(run), lost, remark, ok);
    Marked(st, NoLoss.Release(f, ok), was, s.Dirty(), run.page, run.page + run.pages, remark);
    TrackedUnless(st, NoLoss.Release(f, ok));
    ShownBy(s, now);
  }

  lemma Relost(run: set<int>, lost: set<int>, remark: bool, ok: bool)
    requires lost == if !ok then run else {}
    requires !ok ==> remark
    ensures (if remark then run - lost else {}) == if remark && ok then run else {}
  {
  }

  /** CcAcquireByteRangeForWrite: what it takes is a step `Acquire`. */
  method AcquireStep(s: SharedCacheMap, target: Option<int>, targetLength: nat, ghost st: NoLoss.State, ghost f: nat)
    returns (found: bool, run: FlushCache.Run, ghost now: NoLoss.State)
    requires Shows(s, st) && (target.Some? ==> target.value >= 0 && targetLength > 0)
    requires f < |st.flushers| && st.flushers[f].Looking?
    modifies s`dirtyPages, s`pagesToWrite, s`onDirtyList, s.mbcb, s.cc
    ensures Shows(s, now) && (!found ==> now == st)
    ensures found ==> run.page >= 0 && run.pages > 0 && IsRunOf(s, run)
    ensures found ==> var a := NoLoss.Acquire(f, run.page, run.page + run.pages); NoLoss.Possible(st, a) && now == NoLoss.After(st, a)
  {
    hide RangesOk, Aligned, LargeBitmaps, DirtyOf, CanRemark, RunIsFull, ResumesAfter, WillResume, LazyPlace, OnlyTightened, NoneIn;
    hide IsDirty, Shows, PageRun, PagesOf, Within, NoLoss.After, NoLoss.Possible;
    ShowsInSection(s, st);
    ShownBy(s, st);
    ghost var was := s.Dirty();
    var page, pages;
    found, page, pages := s.AcquireByteRange(target, targetLength);
    run, now := FlushCache.Run(page, pages), st;
    if found {
      RunIs(run);
      LessIsWithin(was, run, s.sectionPages);
      TakenIsRun(s, run);
      Acquired(st, f, was, s.Dirty(), page, page + pages);
      now := NoLoss.After(st, NoLoss.Acquire(f, page, page + pages));
    }
    ShownBy(s, now);
  }
}
