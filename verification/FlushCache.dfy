/** The loop of CcFlushCache on a user data stream (one whose dirty pages are all in the mask). */
module FlushCache {
  import opened CacheGlobals
  import opened MaskBcb
  import opened MaskScan
  import opened MaskRuns
  import opened MaskStream

  datatype Status = Success | VerifyRequired | FileLockConflict | WriteInProgress | HardError

  predicate RetryError(status: Status) {
    status.VerifyRequired? || status.FileLockConflict? || status.WriteInProgress?
  }

  /** Who is asking: the lazy writer within its quota, the lazy writer for a stream about to be torn down, or
      an explicit flush. */
  datatype Request = LazyWriter | FastLazyWriter | WholeFile | Range(offset: nat, length: nat)

  datatype Run = Run(page: int, pages: int)

  ghost function PagesOf(run: Run): set<int> {
    PageRun(run.page, run.page + run.pages)
  }

  ghost function Union(log: seq<Run>): set<int> {
    if log == [] then {} else Union(log[..|log| - 1]) + PagesOf(log[|log| - 1])
  }

  /** Each run ends where the next may begin: the runs are in ascending order and disjoint. */
  ghost predicate Increasing(log: seq<Run>) {
    forall i, j | 0 <= i < j < |log| :: log[i].page + log[i].pages <= log[j].page
  }

  ghost predicate InSection(s: SharedCacheMap)
    reads s, s.mbcb
  {
    Within(s.Dirty(), s.sectionPages)
  }

  ghost predicate Within(dirty: set<int>, pages: int) {
    pages <= PAGE_LIMIT && forall p | p in dirty :: 0 <= p < pages
  }

  /** What the pages of the file hold in memory and on the disk. */
  class Section {
    var cache: seq<int>
    var disk: seq<int>

    constructor (pages: nat)
      ensures |cache| == |disk| == pages && cache == disk
    {
      cache, disk := seq(pages, _ => 0), seq(pages, _ => 0);
    }

    predicate Same(p: int)
      reads this
    {
      0 <= p < |cache| == |disk| && cache[p] == disk[p]
    }

    /** MmFlushSection: any outcome, but a collision is only answered to those who asked for that. A write that
        fails may leave anything in its pages on the disk. */
    method Flush(page: nat, pages: nat, failCollisions: bool) returns (status: Status)
      requires page + pages <= |cache| == |disk|
      modifies this`disk
      ensures |disk| == |cache| && OnlyWithin(old(disk), disk, page, pages)
      ensures status.Success? ==> forall p | page <= p < page + pages :: Same(p)
      ensures status.WriteInProgress? ==> failCollisions
    {
      status := *;
      if status.WriteInProgress? && !failCollisions { status := Success; }
      var image: seq<int> := *;
      if status.Success? || |image| != pages { image := cache[page..page + pages]; }
      disk := disk[..page] + image + disk[page + pages..];
    }
  }

  predicate OnlyWithin(was: seq<int>, now: seq<int>, page: nat, pages: nat) {
    |was| == |now| && forall p | 0 <= p < |was| && !(page <= p < page + pages) :: now[p] == was[p]
  }

  /** After a hard error: one more try, page by page. A page is written, given up, or to be retried, as Mm answers
      for it; the status is the last answer. */
  method RetryPages(sec: Section, page: nat, pages: nat, failCollisions: bool)
    returns (status: Status, verify: bool, popup: bool, ghost answers: seq<Status>)
    requires pages > 0 && page + pages <= |sec.cache| == |sec.disk|
    modifies sec`disk
    ensures |sec.disk| == |sec.cache| && OnlyWithin(old(sec.disk), sec.disk, page, pages)
    ensures |answers| == pages && status == answers[pages - 1] && (!failCollisions ==> WriteInProgress !in answers)
    ensures verify <==> SomeRetry(answers)
    ensures popup <==> HardError in answers
    ensures forall i | 0 <= i < pages && answers[i].Success? :: sec.Same(page + i)
  {
    var offset, left := page, pages;
    verify, popup, status, answers := false, false, HardError, [];
    while left > 0
      invariant offset + left == page + pages && 0 <= left <= pages && |answers| == pages - left
      invariant |sec.disk| == |sec.cache| && OnlyWithin(old(sec.disk), sec.disk, page, pages)
      invariant (left < pages ==> status == answers[|answers| - 1]) && (!failCollisions ==> WriteInProgress !in answers)
      invariant verify <==> SomeRetry(answers)
      invariant popup <==> HardError in answers
      invariant forall i | 0 <= i < |answers| && answers[i].Success? :: sec.Same(page + i)
    {
      status := sec.Flush(offset, 1, failCollisions);
      if !status.Success? && !RetryError(status) {
        popup := true;
      }
      verify := verify || RetryError(status);
      RetryMore(answers, status);
      answers := answers + [status];
      offset, left := offset + 1, left - 1;
    }
  }

  predicate SomeRetry(answers: seq<Status>) {
    exists i | 0 <= i < |answers| :: RetryError(answers[i])
  }

  lemma RetryMore(answers: seq<Status>, status: Status)
    ensures SomeRetry(answers + [status]) <==> SomeRetry(answers) || RetryError(status)
  {
    var more := answers + [status];
    assert more[|answers|] == status && forall i | 0 <= i < |answers| :: more[i] == answers[i];
  }

  /** What Mm answers to the writes of one run: once for the run, and if that is a hard error, once for each
      page. No answer is a hot spot, which is not written. */
  predicate IsAnswered(answers: seq<Status>, pages: int) {
    answers == [] || |answers| == if answers[0].HardError? then 1 + pages else 1
  }

  function PageAnswers(answers: seq<Status>): seq<Status> {
    if answers == [] then [] else answers[1..]
  }

  /** The answers make the flush stop. */
  predicate Stops(answers: seq<Status>) {
    SomeRetry(PageAnswers(answers)) || (answers != [] && RetryError(answers[0]) && !answers[0].WriteInProgress?)
  }

  /** The run is to be marked again. */
  predicate Remains(answers: seq<Status>) {
    answers == [] || RetryError(answers[0]) || SomeRetry(PageAnswers(answers))
  }

  /** The pages of the run that were given up. */
  ghost function Failed(run: Run, answers: seq<Status>): set<int> {
    set i | 0 <= i < |PageAnswers(answers)| && PageAnswers(answers)[i].HardError? :: run.page + i
  }

  /** Writes one acquired run, unless it looks like a hot spot. If it is not to be marked again, each page of it is
      the same in memory and on the disk, or was given up. */
  method WriteRun(sec: Section, run: Run, before: Status, hotSpot: bool, failCollisions: bool)
    returns (status: Status, collided: bool, verify: bool, popup: bool, ghost answers: seq<Status>)
    requires 0 <= run.page && 0 < run.pages && run.page + run.pages <= |sec.cache| == |sec.disk|
    modifies sec`disk
    ensures |sec.disk| == |sec.cache| && OnlyWithin(old(sec.disk), sec.disk, run.page, run.pages)
    ensures IsAnswered(answers, run.pages) && (answers == [] <==> hotSpot) && (!failCollisions ==> WriteInProgress !in answers)
    ensures hotSpot || collided || verify <==> Remains(answers)
    ensures verify <==> Stops(answers)
    ensures popup <==> Failed(run, answers) != {}
    ensures status == if hotSpot then before else answers[|answers| - 1]
    ensures !Remains(answers) ==> forall p | p in PagesOf(run) :: sec.Same(p) || p in Failed(run, answers)
  {
    status, collided, verify, popup, answers := before, false, false, false, [];
    if !hotSpot {
      status := sec.Flush(run.page, run.pages, failCollisions);
      answers := [status];
      if status.WriteInProgress? {
        collided := true;
      } else if RetryError(status) {
        verify := true;
      } else if !status.Success? {
        ghost var pages;
        status, verify, popup, pages := RetryPages(sec, run.page, run.pages, failCollisions);
        answers := [HardError] + pages;
        assert PageAnswers(answers) == pages;
        WrittenOrFailed(sec, run, answers);
      }
    }
  }

  lemma WrittenOrFailed(sec: Section, run: Run, answers: seq<Status>)
    requires IsAnswered(answers, run.pages) && answers != [] && answers[0].HardError?
    requires forall i | 0 <= i < run.pages && PageAnswers(answers)[i].Success? :: sec.Same(run.page + i)
    ensures HardError in PageAnswers(answers) <==> Failed(run, answers) != {}
    ensures !Remains(answers) ==> forall p | p in PagesOf(run) :: sec.Same(p) || p in Failed(run, answers)
  {
    var pages := PageAnswers(answers);
    if HardError in pages {
      var i :| 0 <= i < |pages| && pages[i] == HardError;
      assert run.page + i in Failed(run, answers);
    }
    if !SomeRetry(pages) {
      forall p | p in PagesOf(run) ensures sec.Same(p) || p in Failed(run, answers) {
        var i := p - run.page;
        assert !RetryError(pages[i]) && p == run.page + i;
      }
    }
  }

  // ----- Marking a run again -------------------------------------------------------------------------

  /** The run lies in the section, in one window, and if the mask is still in its small form, within that. */
  ghost predicate IsRunOf(s: SharedCacheMap, run: Run)
    reads s, s.mbcb
  {
    && s.mbcb != null && 0 <= run.page && 0 < run.pages && run.page + run.pages <= s.sectionPages
    && BaseOf(run.page) == BaseOf(run.page + run.pages - 1) && (!s.mbcb.grande ==> run.page + run.pages <= INITIAL_PAGES)
  }

  /** The run can be marked again. */
  ghost predicate Remarks(s: SharedCacheMap, run: Run, zoneOk: bool, poolOk: bool)
    reads s, s.mbcb
  {
    (s.sectionPages > INITIAL_PAGES ==> zoneOk) && (poolOk || s.HasRoom(run.page))
  }

  /** Marking a run again that was taken before fails for two reasons only. On a section over the initial size it
      wants a bitmap from the zone, needed or not. And in the large form the run's range may be gone: if every
      range has dirty pages and none has any in the run's window, a range structure must come from the pool. */
  lemma RemarkIff(s: SharedCacheMap, run: Run, zone: (bool, bool), mbcbOk: bool, poolOk: bool)
    requires s.Valid() && IsRunOf(s, run)
    ensures s.CanMark(run.page, run.page + run.pages - 1, zone, mbcbOk, poolOk) <==> Remarks(s, run, zone.0, poolOk)
    ensures s.HasRoom(run.page) <==>
              !s.mbcb.grande || BaseOf(run.page) in Windows(s.Dirty()) || |Windows(s.Dirty())| < |s.mbcb.ranges|
    ensures s.sectionPages <= INITIAL_PAGES ==> s.HasRoom(run.page)
  {
    HasRoomIff(s.mbcb.ranges, run.page);
  }

  /** The mask part of CcReleaseByteRangeFromWrite. `zoneOk` is whether the zone has a bitmap, `poolOk` whether the
      pool has a range structure. */
  method ReleaseRun(s: SharedCacheMap, run: Run, remark: bool, zoneOk: bool, poolOk: bool) returns (ghost lost: set<int>)
    requires s.Valid() && InSection(s) && IsRunOf(s, run)
    modifies s`dirtyPages, s`onDirtyList, s`mbcb, s`validDataGoal, s.mbcb, s.cc`totalDirtyPages
    ensures s.Valid() && InSection(s) && s.mbcb == old(s.mbcb) && s.Quota() == old(s.Quota())
    ensures lost == if remark && !old(Remarks(s, run, zoneOk, poolOk)) then PagesOf(run) else {}
    ensures s.Dirty() == old(s.Dirty()) + (if remark then PagesOf(run) - lost else {})
  {
    hide RangesOk, Aligned, LargeBitmaps, DirtyOf, Windows, Within, PageRun, PagesOf, HasRoomFor, BaseOf;
    lost := {};
    if remark {
      var secondOk, mbcbOk := *, *;
      RemarkIff(s, run, (zoneOk, secondOk), mbcbOk, poolOk);
      RunBounds(run);
      SectionLimit(s);
      RunIs(run);
      GrownIsWithin(s.Dirty(), run.page, run.page + run.pages, s.sectionPages);
      ghost var marked;
      var taken;
      marked, taken := s.SetDirtyInMask(4096 * run.page, 4096 * run.pages, (zoneOk, secondOk), mbcbOk, poolOk);
      lost := if marked then {} else PagesOf(run);
    }
  }

  lemma GrownIsWithin(dirty: set<int>, first: int, beyond: int, pages: int)
    requires Within(dirty, pages) && 0 <= first && beyond <= pages
    ensures Within(dirty + PageRun(first, beyond), pages)
  {
  }

  lemma RunBounds(run: Run)
    requires run.pages > 0
    ensures FirstPage(4096 * run.page) == run.page
    ensures LastPage(4096 * run.page, 4096 * run.pages) == run.page + run.pages - 1
  {
  }

  /** Marks one page, the allocations being granted. */
  method MarkOne(s: SharedCacheMap, page: nat)
    requires s.Valid() && page < s.sectionPages <= PAGE_LIMIT && s.sectionPages > INITIAL_PAGES
    modifies s`dirtyPages, s`onDirtyList, s`mbcb, s.mbcb, s.cc`totalDirtyPages
    ensures s.Valid() && s.Dirty() == old(s.Dirty()) + {page} && (s.mbcb == old(s.mbcb) || fresh(s.mbcb))
    ensures (old(s.IsLarge()) || page >= INITIAL_PAGES ==> s.IsLarge()) && s.mbcb != null
    ensures old(s.HasRoom(page)) ==> s.Slots() == old(s.Slots())
  {
    hide RangesOk, Aligned, LargeBitmaps, DirtyOf;
    var marked, taken := s.SetPagesDirty(page, page, (true, true), true, true);
    assert PageRun(page, page + 1) == {page};
  }

  /** The second reason does occur, with bitmaps to spare: three windows are dirty, the only run of the first is
      taken, another writer dirties a fourth window and so recycles the first one's range, and when the run is to
      be marked again the pool is empty. */
  method LostRunExample(cc: Globals) returns (s: SharedCacheMap, ghost lost: set<int>)
    modifies cc
    ensures s.Valid() && lost == {0} && s.Dirty() == {4096, 8192, 12288}
  {
    hide RangesOk, Aligned, LargeBitmaps, DirtyOf, HasRoomFor, Windows, PageRun, BaseOf;
    FourWindows();
    s := ThreeWindows(cc);
    TakeFirst(s);
    RoomInStream(s, 12288);
    MarkOne(s, 12288);
    RoomInStream(s, 0);
    assert s.Dirty() == {4096, 8192, 12288};
    lost := ReleaseRun(s, Run(0, 1), true, true, false);
    RunIs(Run(0, 1));
    assert PagesOf(Run(0, 1)) == {0};
  }

  method ThreeWindows(cc: Globals) returns (s: SharedCacheMap)
    modifies cc`totalDirtyPages
    ensures fresh(s) && s.Valid() && s.Dirty() == {0, 4096, 8192} && s.IsLarge() && s.Slots() == 3 && s.cc == cc
    ensures s.sectionPages == 16384 && fresh(s.mbcb)
  {
    hide RangesOk, Aligned, LargeBitmaps, DirtyOf, HasRoomFor, Windows, PageRun, BaseOf;
    FourWindows();
    s := new SharedCacheMap(cc, true, 16384);
    MarkOne(s, 0);
    assert s.Dirty() == {0};
    if s.IsLarge() { RoomInStream(s, 4096); }
    MarkOne(s, 4096);
    assert s.Dirty() == {0, 4096};
    RoomInStream(s, 8192);
    MarkOne(s, 8192);
    assert s.Dirty() == {0, 4096, 8192};
  }

  method TakeFirst(s: SharedCacheMap)
    requires s.Valid() && s.Dirty() == {0, 4096, 8192} && s.IsLarge() && s.Slots() == 3 && s.sectionPages == 16384
    modifies s`dirtyPages, s`pagesToWrite, s`onDirtyList, s.mbcb, s.cc
    ensures s.Valid() && s.Dirty() == {4096, 8192} && s.IsLarge() && s.Slots() == 3
  {
    hide RangesOk, Aligned, LargeBitmaps, DirtyOf, HasRoomFor, Windows, RunIsFull, ResumesAfter, CanRemark, WillResume, LazyPlace;
    var found, page, pages := s.AcquireByteRange(Some(0), 4096);
    assert 0 in {0, 4096, 8192};
    assert found && page == 0;
    assert pages > 1 ==> 1 in PageRun(page, page + pages);
    assert PageRun(0, 1) == {0};
  }

  lemma FourWindows()
    ensures BaseOf(0) == 0 && BaseOf(4096) == 4096 && BaseOf(8192) == 8192 && BaseOf(12288) == 12288
    ensures Windows({0}) == {0} && Windows({0, 4096}) == {0, 4096} && Windows({4096, 8192}) == {4096, 8192}
    ensures Windows({4096, 8192, 12288}) == {4096, 8192, 12288}
  {
    hide BaseOf, Windows;
    FourBases();
    FixedWindows({0});
    FixedWindows({0, 4096});
    FixedWindows({4096, 8192});
    FixedWindows({4096, 8192, 12288});
  }

  lemma FixedWindows(pages: set<int>)
    requires forall p | p in pages :: BaseOf(p) == p
    ensures Windows(pages) == pages
  {
    hide BaseOf;
    forall p | p in pages ensures p in Windows(pages) { assert BaseOf(p) == p; }
  }

  lemma FourBases()
    ensures BaseOf(0) == 0 && BaseOf(4096) == 4096 && BaseOf(8192) == 8192 && BaseOf(12288) == 12288
  {
  }

  lemma RoomInStream(s: SharedCacheMap, page: int)
    requires s.Valid() && s.IsLarge()
    ensures s.HasRoom(page) <==> BaseOf(page) in Windows(s.Dirty()) || |Windows(s.Dirty())| < s.Slots()
  {
    HasRoomIff(s.mbcb.ranges, page);
  }

  // ----- Other writers -------------------------------------------------------------------------------

  /** Pages that differ are dirty, or excused. */
  ghost predicate Tracked(cache: seq<int>, disk: seq<int>, dirty: set<int>, excused: set<int>) {
    |cache| == |disk| && forall p | 0 <= p < |cache| && cache[p] != disk[p] :: p in dirty || p in excused
  }

  /** Writers that run while the lazy writer is at work: they store into pages and mark them, any number of
      times. `unmarked` are those that they could not mark. */
  method Writers(s: SharedCacheMap, sec: Section, ghost excused: set<int>) returns (ghost unmarked: set<int>)
    requires s.Valid() && InSection(s) && |sec.cache| == s.sectionPages && Tracked(sec.cache, sec.disk, s.Dirty(), excused)
    modifies s`dirtyPages, s`onDirtyList, s`mbcb, s`validDataGoal, s.mbcb, s.cc`totalDirtyPages, sec`cache
    ensures s.Valid() && InSection(s) && old(s.Dirty()) <= s.Dirty() && s.Quota() == old(s.Quota())
    ensures (s.mbcb == old(s.mbcb) || fresh(s.mbcb)) && (old(s.mbcb) != null ==> s.mbcb == old(s.mbcb))
    ensures old(s.IsLarge()) ==> s.IsLarge()
    ensures |sec.cache| == s.sectionPages && Tracked(sec.cache, sec.disk, s.Dirty(), excused + unmarked)
  {
    hide RangesOk, Aligned, LargeBitmaps, DirtyOf, Tracked;
    var times: nat := *;
    unmarked := {};
    assert excused + {} == excused;
    while times > 0
      invariant s.Valid() && InSection(s) && old(s.Dirty()) <= s.Dirty() && s.Quota() == old(s.Quota())
      invariant (s.mbcb == old(s.mbcb) || fresh(s.mbcb)) && (old(s.mbcb) != null ==> s.mbcb == old(s.mbcb))
      invariant old(s.IsLarge()) ==> s.IsLarge()
      invariant |sec.cache| == s.sectionPages && Tracked(sec.cache, sec.disk, s.Dirty(), excused + unmarked)
    {
      ghost var missed := StoreAndMark(s, sec, excused + unmarked);
      assert excused + (unmarked + missed) == (excused + unmarked) + missed;
      unmarked := unmarked + missed;
      times := times - 1;
    }
  }

  method StoreAndMark(s: SharedCacheMap, sec: Section, ghost excused: set<int>) returns (ghost missed: set<int>)
    requires s.Valid() && InSection(s) && |sec.cache| == s.sectionPages && Tracked(sec.cache, sec.disk, s.Dirty(), excused)
    modifies s`dirtyPages, s`onDirtyList, s`mbcb, s`validDataGoal, s.mbcb, s.cc`totalDirtyPages, sec`cache
    ensures s.Valid() && InSection(s) && old(s.Dirty()) <= s.Dirty() && s.Quota() == old(s.Quota())
    ensures (s.mbcb == old(s.mbcb) || fresh(s.mbcb)) && (old(s.mbcb) != null ==> s.mbcb == old(s.mbcb))
    ensures old(s.IsLarge()) ==> s.IsLarge()
    ensures |sec.cache| == s.sectionPages && Tracked(sec.cache, sec.disk, s.Dirty(), excused + missed)
  {
    hide RangesOk, Aligned, LargeBitmaps, DirtyOf, PageRun, Tracked, Within;
    missed := {};
    NoneMore(excused);
    var page, pages := *, *;
    var data: seq<int> := *;
    if 0 <= page < page + pages <= s.sectionPages && BaseOf(page) == BaseOf(page + pages - 1) && |data| == pages {
      ghost var was, dirty := sec.cache, s.Dirty();
      sec.cache := Stored(sec.cache, page, data);
      missed := MarkStored(s, page, pages);
      StoredIsTracked(was, page, data, sec.disk, dirty, s.Dirty(), excused, missed);
    }
  }

  method MarkStored(s: SharedCacheMap, page: nat, pages: nat) returns (ghost missed: set<int>)
    requires s.Valid() && InSection(s) && 0 < pages && page + pages <= s.sectionPages && BaseOf(page) == BaseOf(page + pages - 1)
    modifies s`dirtyPages, s`onDirtyList, s`mbcb, s.mbcb, s.cc`totalDirtyPages
    ensures s.Valid() && InSection(s) && old(s.Dirty()) <= s.Dirty() && s.Quota() == old(s.Quota())
    ensures (s.mbcb == old(s.mbcb) || fresh(s.mbcb)) && (old(s.mbcb) != null ==> s.mbcb == old(s.mbcb))
    ensures (old(s.IsLarge()) ==> s.IsLarge()) && PageRun(page, page + pages) <= s.Dirty() + missed
  {
    hide RangesOk, Aligned, LargeBitmaps, DirtyOf, PageRun, Within, HasRoomFor, BaseOf;
    var zone, mbcbOk, rangeOk := *, *, *;
    ghost var was, run := s.Dirty(), PageRun(page, page + pages);
    SectionLimit(s);
    GrownIsWithin(was, page, page + pages, s.sectionPages);
    var marked, taken := s.SetPagesDirty(page, page + pages - 1, zone, mbcbOk, rangeOk);
    missed := if marked then {} else run;
    MarkedOrMissed(was, s.Dirty(), run, marked, missed);
  }

  lemma MarkedOrMissed(was: set<int>, dirty: set<int>, run: set<int>, marked: bool, missed: set<int>)
    requires dirty == if marked then was + run else was
    requires missed == if marked then {} else run
    ensures was <= dirty && run <= dirty + missed
  {
  }

  lemma SectionLimit(s: SharedCacheMap)
    requires InSection(s)
    ensures s.sectionPages <= PAGE_LIMIT
  {
  }

  function Stored(cache: seq<int>, page: nat, data: seq<int>): (now: seq<int>)
    requires page + |data| <= |cache|
    ensures |now| == |cache|
  {
    cache[..page] + data + cache[page + |data|..]
  }

  lemma StoredIsTracked(cache: seq<int>, page: nat, data: seq<int>, disk: seq<int>, was: set<int>, dirty: set<int>, excused: set<int>, missed: set<int>)
    requires page + |data| <= |cache| && Tracked(cache, disk, was, excused) && was <= dirty
    requires PageRun(page, page + |data|) <= dirty + missed
    ensures Tracked(Stored(cache, page, data), disk, dirty, excused + missed)
  {
    var now := Stored(cache, page, data);
    forall p | 0 <= p < |now| && now[p] != disk[p] ensures p in dirty || p in excused + missed {
      if page <= p < page + |data| { assert p in PageRun(page, page + |data|); }
    }
  }

  // ----- The loop ----------------------------------------------------------------------------------

  /** First page asked for, and the page behind the last. */
  function Wanted(request: Request): (int, int) {
    if request.Range? then (request.offset / 4096, (request.offset + request.length + 4095) / 4096) else (0, MAXLONGLONG)
  }

  /** What a flush leaves behind. `log` are the runs it took, `answers` what Mm answered to the writes of the last,
      `failed` the pages given up with an error, `lost` those that it could not mark again, and `unmarked` those
      that other writers could not mark. */
  datatype Outcome = Outcome(log: seq<Run>, answers: seq<Status>, failed: set<int>, lost: set<int>, unmarked: set<int>)
  {
    ghost function Excused(): set<int> { failed + lost + unmarked }
  }

  /** One turn of the loop, after CcAcquireByteRangeForWrite has taken `run`: the write, then the release. Nothing
      is locked in between, and unless the flush is `alone`, writers have their turn before and after the write.
      `room` is whether, when it is to be marked again, the run has a range or there is a clean one. */
  method FlushRun(s: SharedCacheMap, sec: Section, run: Run, before: Status, mayBeHot: bool, hot: int -> bool, alone: bool, failCollisions: bool,
                  ghost others: set<int>, ghost out: Outcome)
    returns (status: Status, verify: bool, popup: bool, zoneOk: bool, poolOk: bool, ghost room: bool, ghost out': Outcome)
    requires s.Valid() && InSection(s) && IsRunOf(s, run) && |sec.cache| == s.sectionPages && (alone ==> s.HasRoom(run.page))
    requires Tracked(sec.cache, sec.disk, s.Dirty() + PagesOf(run), others + out.Excused())
    modifies s`dirtyPages, s`onDirtyList, s`mbcb, s`validDataGoal, s.mbcb, s.cc`totalDirtyPages, sec
    ensures s.Valid() && InSection(s) && s.mbcb == old(s.mbcb) && s.Quota() == old(s.Quota())
    ensures |sec.cache| == s.sectionPages && Tracked(sec.cache, sec.disk, s.Dirty(), others + out'.Excused())
    ensures out'.log == out.log + [run] && IsAnswered(out'.answers, run.pages) && (out'.answers == [] <==> mayBeHot && hot(run.page))
    ensures !failCollisions ==> WriteInProgress !in out'.answers
    ensures out'.failed == out.failed + Failed(run, out'.answers) && (popup <==> Failed(run, out'.answers) != {})
    ensures status == if out'.answers == [] then before else out'.answers[|out'.answers| - 1]
    ensures verify <==> Stops(out'.answers)
    ensures out'.lost == out.lost + if Remains(out'.answers) && IsLost(s.sectionPages, zoneOk, poolOk, room) then PagesOf(run) else {}
    ensures s.sectionPages <= INITIAL_PAGES || alone ==> room
    ensures Remains(out'.answers) ==> PagesOf(run) <= s.Dirty() + out'.lost
    ensures alone ==> out'.unmarked == out.unmarked && sec.cache == old(sec.cache)
    ensures alone ==> s.Dirty() == old(s.Dirty()) || s.Dirty() == old(s.Dirty()) + PagesOf(run)
    ensures alone && !Remains(out'.answers) ==> s.Dirty() == old(s.Dirty())
  {
    hide RangesOk, Aligned, LargeBitmaps, DirtyOf, Tracked, Failed, PagesOf, Remains, Stops, IsAnswered;
    hide Outcome.Excused, Windows, HasRoomFor, Within;
    ghost var excused, answers, unmarked, lost, more := others + out.Excused(), [], {}, {}, {};
    TrackedMore(sec.cache, sec.disk, s.Dirty() + PagesOf(run), excused, s.Dirty(), excused + PagesOf(run));
    var remark;
    status, remark, verify, popup, answers, unmarked :=
      WriteHeld(s, sec, run, before, mayBeHot, hot, alone, failCollisions, excused);
    ghost var failed, held := Failed(run, answers), Held(run, answers);
    ghost var dirty := s.Dirty();
    zoneOk, poolOk, room, lost, more := ReleaseHeld(s, sec, run, remark, alone, excused + unmarked + failed, held);
    out' := Outcome(out.log + [run], answers, out.failed + failed, out.lost + lost, out.unmarked + (unmarked + more));
    Settled(others, out, out', excused, failed, lost, unmarked, more);
    HeldOrNot(run, answers, s.Dirty(), dirty, lost);
    NoneMore(out.unmarked);
  }

  /** The release of a run after its write, other writers having had their turn once more. */
  method ReleaseHeld(s: SharedCacheMap, sec: Section, run: Run, remark: bool, alone: bool, ghost excused: set<int>, ghost held: set<int>)
    returns (zoneOk: bool, poolOk: bool, ghost room: bool, ghost lost: set<int>, ghost unmarked: set<int>)
    requires s.Valid() && InSection(s) && IsRunOf(s, run) && |sec.cache| == s.sectionPages && (alone ==> s.HasRoom(run.page))
    requires Tracked(sec.cache, sec.disk, s.Dirty(), excused + held) && held == if remark then PagesOf(run) else {}
    modifies s`dirtyPages, s`onDirtyList, s`mbcb, s`validDataGoal, s.mbcb, s.cc`totalDirtyPages, sec`cache
    ensures s.Valid() && InSection(s) && s.mbcb == old(s.mbcb) && s.Quota() == old(s.Quota())
    ensures |sec.cache| == s.sectionPages && Tracked(sec.cache, sec.disk, s.Dirty(), excused + unmarked + lost)
    ensures lost == if remark && IsLost(s.sectionPages, zoneOk, poolOk, room) then PagesOf(run) else {}
    ensures s.sectionPages <= INITIAL_PAGES || alone ==> room
    ensures remark ==> PagesOf(run) <= s.Dirty() + lost
    ensures alone ==> unmarked == {} && sec.cache == old(sec.cache) && s.Dirty() == old(s.Dirty()) + (held - lost)
  {
    hide RangesOk, Aligned, LargeBitmaps, DirtyOf, Tracked, PagesOf, Windows, HasRoomFor, Within;
    unmarked := {};
    NoneMore(excused + held);
    if !alone { unmarked := Writers(s, sec, excused + held); }
    zoneOk, poolOk := *, *;
    room := s.HasRoom(run.page);
    ghost var dirty := s.Dirty();
    RemarkIff(s, run, (zoneOk, zoneOk), true, poolOk);
    lost := ReleaseRun(s, run, remark, zoneOk, poolOk);
    TrackedMore(sec.cache, sec.disk, dirty, excused + held + unmarked, s.Dirty(), excused + unmarked + lost);
  }

  lemma HeldOrNot(run: Run, answers: seq<Status>, now: set<int>, dirty: set<int>, lost: set<int>)
    ensures now == dirty + (Held(run, answers) - lost) && (lost == {} || lost == PagesOf(run)) ==>
              now == dirty || now == dirty + PagesOf(run)
    ensures now == dirty + (Held(run, answers) - lost) && !Remains(answers) ==> now == dirty
  {
  }

  ghost function Held(run: Run, answers: seq<Status>): set<int> {
    if Remains(answers) then PagesOf(run) else {}
  }

  /** The write of a run that was taken, after other writers have had their turn. */
  method WriteHeld(s: SharedCacheMap, sec: Section, run: Run, before: Status, mayBeHot: bool, hot: int -> bool, alone: bool, failCollisions: bool,
                   ghost excused: set<int>)
    returns (status: Status, remark: bool, verify: bool, popup: bool, ghost answers: seq<Status>, ghost unmarked: set<int>)
    requires s.Valid() && InSection(s) && IsRunOf(s, run) && |sec.cache| == s.sectionPages
    requires Tracked(sec.cache, sec.disk, s.Dirty(), excused + PagesOf(run))
    modifies s`dirtyPages, s`onDirtyList, s`mbcb, s`validDataGoal, s.mbcb, s.cc`totalDirtyPages, sec
    ensures s.Valid() && InSection(s) && IsRunOf(s, run) && s.mbcb == old(s.mbcb) && s.Quota() == old(s.Quota())
    ensures |sec.cache| == s.sectionPages
    ensures Tracked(sec.cache, sec.disk, s.Dirty(), excused + unmarked + Failed(run, answers) + Held(run, answers))
    ensures IsAnswered(answers, run.pages) && (answers == [] <==> mayBeHot && hot(run.page)) && (!failCollisions ==> WriteInProgress !in answers)
    ensures (popup <==> Failed(run, answers) != {}) && (verify <==> Stops(answers)) && (remark <==> Remains(answers))
    ensures status == if answers == [] then before else answers[|answers| - 1]
    ensures alone ==> unmarked == {} && sec.cache == old(sec.cache) && s.Dirty() == old(s.Dirty())
    ensures alone ==> s.HasRoom(run.page) == old(s.HasRoom(run.page))
  {
    hide RangesOk, Aligned, LargeBitmaps, DirtyOf, OnlyWithin, Tracked, Failed, PagesOf, Remains, Stops, IsAnswered;
    hide Windows, HasRoomFor, Within;
    unmarked := {};
    NoneMore(excused + PagesOf(run));
    if !alone { unmarked := Writers(s, sec, excused + PagesOf(run)); }
    var hotSpot := mayBeHot && hot(run.page);
    ghost var disk, held := sec.disk, excused + PagesOf(run) + unmarked;
    SameSize(sec.cache, sec.disk, s.Dirty(), held);
    var collided;
    status, collided, verify, popup, answers := WriteRun(sec, run, before, hotSpot, failCollisions);
    remark := hotSpot || collided || verify;
    Written(sec, disk, s.Dirty(), held, run, answers, excused + unmarked + Failed(run, answers) + Held(run, answers));
  }

  lemma SameSize(cache: seq<int>, disk: seq<int>, dirty: set<int>, excused: set<int>)
    requires Tracked(cache, disk, dirty, excused)
    ensures |disk| == |cache|
  {
  }

  /** What makes marking a run again fail. */
  predicate IsLost(sectionPages: int, zoneOk: bool, poolOk: bool, room: bool) {
    (sectionPages > INITIAL_PAGES && !zoneOk) || (!poolOk && !room)
  }

  lemma TrackedMore(cache: seq<int>, disk: seq<int>, dirty: set<int>, excused: set<int>, dirty': set<int>, excused': set<int>)
    requires Tracked(cache, disk, dirty, excused) && dirty + excused <= dirty' + excused'
    ensures Tracked(cache, disk, dirty', excused')
  {
    forall p | 0 <= p < |cache| && cache[p] != disk[p] ensures p in dirty' || p in excused' {
      assert p in dirty + excused;
    }
  }

  lemma Settled(others: set<int>, out: Outcome, out': Outcome, excused: set<int>, failed: set<int>, lost: set<int>, unmarked: set<int>, more: set<int>)
    requires excused == others + out.Excused()
    requires out'.failed == out.failed + failed && out'.lost == out.lost + lost && out'.unmarked == out.unmarked + (unmarked + more)
    ensures others + out'.Excused() == excused + unmarked + failed + more + lost
  {
  }

  /** A run was written as far as it could be, and what remains of it is held to be marked again, or given up. */
  lemma Written(sec: Section, was: seq<int>, dirty: set<int>, excused: set<int>, run: Run, answers: seq<Status>, excused': set<int>)
    requires 0 <= run.page && 0 < run.pages && run.page + run.pages <= |sec.cache|
    requires Tracked(sec.cache, was, dirty, excused) && OnlyWithin(was, sec.disk, run.page, run.pages)
    requires !Remains(answers) ==> forall p | p in PagesOf(run) :: sec.Same(p) || p in Failed(run, answers)
    requires excused <= excused' + PagesOf(run) && Failed(run, answers) <= excused'
    requires Remains(answers) ==> PagesOf(run) <= excused'
    ensures Tracked(sec.cache, sec.disk, dirty, excused')
  {
    forall p | 0 <= p < |sec.cache| && sec.cache[p] != sec.disk[p] ensures p in dirty || p in excused' {
      if run.page <= p < run.page + run.pages {
        assert p in PagesOf(run) && !sec.Same(p);
      } else {
        assert p !in PagesOf(run);
      }
    }
  }

  function End(log: seq<Run>, first: int): int {
    if log == [] then first else log[|log| - 1].page + log[|log| - 1].pages
  }

  /** How far an explicit flush has come: it took ascending disjoint runs of what was dirty in the range asked
      for, and nothing there is dirty up to the end of the last. */
  ghost predicate TookInOrder(was: set<int>, now: set<int>, first: int, beyond: int, log: seq<Run>) {
    && now == was - Union(log) && Union(log) <= was && Increasing(log)
    && (forall i | 0 <= i < |log| :: first <= log[i].page && 0 < log[i].pages && log[i].page + log[i].pages <= beyond)
    && NoneIn(now, first, End(log, first))
  }

  /** The same after a turn that ended with a retryable error: the last run may be dirty again. */
  ghost predicate TookInOrderThenRetry(was: set<int>, now: set<int>, first: int, beyond: int, log: seq<Run>) {
    && log != []
    && (TookInOrder(was, now, first, beyond, log) ||
        (TookInOrder(was, now - PagesOf(log[|log| - 1]), first, beyond, log) && PagesOf(log[|log| - 1]) <= now))
  }

  lemma UnionOfMore(log: seq<Run>, run: Run)
    ensures Union(log + [run]) == Union(log) + PagesOf(run)
  {
    assert (log + [run])[..|log|] == log;
  }

  lemma EndsInOrder(log: seq<Run>, run: Run, first: int)
    requires Increasing(log) && (forall i | 0 <= i < |log| :: 0 < log[i].pages) && End(log, first) <= run.page
    ensures Increasing(log + [run])
  {
    var log' := log + [run];
    forall i, j | 0 <= i < j < |log'| ensures log'[i].page + log'[i].pages <= log'[j].page {
      if j == |log| && i < |log| - 1 { assert log[i].page + log[i].pages <= log[|log| - 1].page; }
    }
  }

  lemma NextRun(now: set<int>, first: int, log: seq<Run>, run: Run, from: int)
    requires NoneIn(now, first, End(log, first)) && first <= End(log, first)
    requires from == first || from == End(log, first)
    requires from <= run.page && 0 < run.pages && PagesOf(run) <= now && NoneIn(now, from, run.page)
    ensures End(log, first) <= run.page && NoneIn(now - PagesOf(run), first, run.page + run.pages)
    ensures |now - PagesOf(run)| < |now|
  {
    assert run.page in PagesOf(run) && run.page in now;
    assert |now| == |now - PagesOf(run)| + |PagesOf(run)| by {
      assert now == (now - PagesOf(run)) + PagesOf(run);
    }
  }

  /** Taking the least dirty page's run from where the flush had come to. */
  lemma TookNext(was: set<int>, now: set<int>, first: int, beyond: int, log: seq<Run>, run: Run, from: int)
    requires TookInOrder(was, now, first, beyond, log)
    requires from == first || from == End(log, first)
    requires from <= run.page && 0 < run.pages && run.page + run.pages <= beyond && first <= End(log, first)
    requires PagesOf(run) <= now && NoneIn(now, from, run.page)
    ensures TookInOrder(was, now - PagesOf(run), first, beyond, log + [run])
    ensures first <= End(log + [run], first) && |now - PagesOf(run)| < |now|
  {
    hide NoneIn, Union, PagesOf, Increasing;
    NextRun(now, first, log, run, from);
    UnionOfMore(log, run);
    EndsInOrder(log, run, first);
    TakenTwice(was, now, Union(log), PagesOf(run));
  }

  lemma TakenTwice(was: set<int>, now: set<int>, taken: set<int>, run: set<int>)
    requires now == was - taken && taken <= was && run <= now
    ensures now - run == was - (taken + run) && taken + run <= was
  {
  }

  /** Nothing more was found from where the flush had come to. */
  lemma TookAll(was: set<int>, now: set<int>, first: int, beyond: int, log: seq<Run>, from: int)
    requires TookInOrder(was, now, first, beyond, log) && (from == first || from == End(log, first))
    requires NoneIn(now, from, beyond)
    ensures NoneIn(now, first, beyond)
  {
  }

  lemma TookUpToEnd(was: set<int>, now: set<int>, first: int, beyond: int, log: seq<Run>)
    requires TookInOrder(was, now, first, beyond, log) && beyond <= End(log, first)
    ensures NoneIn(now, first, beyond)
  {
  }

  lemma MayRetry(was: set<int>, now: set<int>, taken: set<int>, first: int, beyond: int, log: seq<Run>)
    requires log != [] && TookInOrder(was, taken, first, beyond, log)
    requires now == taken || now == taken + PagesOf(log[|log| - 1])
    ensures TookInOrderThenRetry(was, now, first, beyond, log)
  {
    if now != taken {
      var run := log[|log| - 1];
      assert log[..|log| - 1] + [run] == log;
      UnionOfMore(log[..|log| - 1], run);
      assert now - PagesOf(run) == taken;
    }
  }

  lemma LessIsWithin(dirty: set<int>, run: Run, pages: int)
    requires Within(dirty, pages) && PagesOf(run) <= dirty && run.pages > 0
    ensures Within(dirty - PagesOf(run), pages) && run.page + run.pages <= pages
  {
    assert run.page + run.pages - 1 in PagesOf(run);
  }

  lemma TakenIsRun(s: SharedCacheMap, run: Run)
    requires s.mbcb != null && CanRemark(s.mbcb.ranges, s.mbcb.grande, run.page, run.pages) && run.page + run.pages <= s.sectionPages
    ensures IsRunOf(s, run) && s.HasRoom(run.page)
  {
  }

  lemma RunIs(run: Run)
    ensures PagesOf(run) == PageRun(run.page, run.page + run.pages)
  {
  }

  /** One turn of an explicit flush. */
  method ExplicitTurn(s: SharedCacheMap, target: Option<int>, nextLength: nat, ghost was: set<int>, ghost first: int, ghost log: seq<Run>)
    returns (found: bool, run: Run)
    requires s.Valid() && InSection(s) && nextLength != 0 && (target.Some? ==> target.value >= 0)
    requires TookInOrder(was, s.Dirty(), first, BeyondPage(target, nextLength), log) && first <= End(log, first)
    requires FromPage(target, nextLength, 0) == first || FromPage(target, nextLength, 0) == End(log, first)
    modifies s`dirtyPages, s`pagesToWrite, s`onDirtyList, s.mbcb, s.cc
    ensures s.Valid() && InSection(s)
    ensures found ==> IsRunOf(s, run) && s.HasRoom(run.page) && PagesOf(run) <= old(s.Dirty())
    ensures found ==> TookInOrder(was, s.Dirty(), first, BeyondPage(target, nextLength), log + [run])
    ensures found ==> first <= run.page && first <= End(log + [run], first) && |s.Dirty()| < |old(s.Dirty())|
    ensures found ==> s.Dirty() == old(s.Dirty()) - PagesOf(run)
    ensures !found ==> s.Dirty() == old(s.Dirty()) && NoneIn(s.Dirty(), first, BeyondPage(target, nextLength))
  {
    hide RangesOk, Aligned, LargeBitmaps, DirtyOf, CanRemark, TookInOrder, NoneIn, RunIsFull, ResumesAfter;
    hide WillResume, LazyPlace, OnlyTightened;
    hide FromPage, BeyondPage, PagesOf, Within, PageRun;
    var page, pages;
    found, page, pages := s.AcquireByteRange(target, nextLength);
    run := Run(page, pages);
    RunIs(run);
    if found {
      LessIsWithin(old(s.Dirty()), run, s.sectionPages);
      TakenIsRun(s, run);
      TookNext(was, old(s.Dirty()), first, BeyondPage(target, nextLength), log, run, FromPage(target, nextLength, 0));
    } else {
      TookAll(was, s.Dirty(), first, BeyondPage(target, nextLength), log, FromPage(target, nextLength, 0));
    }
  }

  /** Whether the lazy writer's next call finds something. */
  ghost predicate LazyWillFind(s: SharedCacheMap)
    reads s, s.mbcb
  {
    s.mbcb != null && s.Dirty() != {} && s.Quota() != 0 && WillResume(s.mbcb)
  }

  /** Nothing is left for the lazy writer to do in this scan, or it came up empty this once. */
  ghost predicate LazyIsDone(s: SharedCacheMap)
    reads s, s.mbcb
  {
    s.mbcb == null || s.Dirty() == {} || s.Quota() == 0 || WillResume(s.mbcb)
  }

  /** One turn of the lazy writer, which takes its turn among the other writers unless it is alone. */
  method LazyTurn(s: SharedCacheMap, sec: Section, alone: bool, ghost excused: set<int>)
    returns (found: bool, run: Run, ghost unmarked: set<int>)
    requires s.Valid() && InSection(s) && |sec.cache| == s.sectionPages && Tracked(sec.cache, sec.disk, s.Dirty(), excused)
    modifies s`dirtyPages, s`pagesToWrite, s`onDirtyList, s`mbcb, s`validDataGoal, s.mbcb, s.cc, sec`cache
    ensures s.Valid() && InSection(s) && |sec.cache| == s.sectionPages
    ensures (s.mbcb == old(s.mbcb) || fresh(s.mbcb)) && (old(s.mbcb) != null ==> s.mbcb == old(s.mbcb))
    ensures found ==> IsRunOf(s, run) && s.HasRoom(run.page) && s.Quota() < old(s.Quota())
    ensures Tracked(sec.cache, sec.disk, s.Dirty() + (if found then PagesOf(run) else {}), excused + unmarked)
    ensures !found ==> s.Quota() == old(s.Quota()) && LazyIsDone(s)
    ensures alone ==> unmarked == {} && sec.cache == old(sec.cache) && (found <==> old(LazyWillFind(s)))
  {
    hide RangesOk, Aligned, LargeBitmaps, DirtyOf, LazyIsDone, LazyWillFind, PagesOf, Within, Tracked, HasRoomFor, IsRunOf;
    unmarked := {};
    NoneMore(excused);
    if !alone { unmarked := Writers(s, sec, excused); }
    ghost var before := s.Dirty();
    found, run := LazyTake(s);
    StillTracked(sec.cache, sec.disk, before, s.Dirty() + (if found then PagesOf(run) else {}), excused + unmarked);
  }

  /** The call of CcAcquireByteRangeForWrite by the lazy writer. */
  method LazyTake(s: SharedCacheMap) returns (found: bool, run: Run)
    requires s.Valid() && InSection(s)
    modifies s`dirtyPages, s`pagesToWrite, s`onDirtyList, s.mbcb, s.cc
    ensures s.Valid() && InSection(s) && (found <==> old(LazyWillFind(s)))
    ensures found ==> IsRunOf(s, run) && s.HasRoom(run.page) && s.Quota() < old(s.Quota())
    ensures old(s.Dirty()) <= s.Dirty() + if found then PagesOf(run) else {}
    ensures !found ==> s.Quota() == old(s.Quota()) && LazyIsDone(s)
  {
    hide RangesOk, Aligned, LargeBitmaps, DirtyOf, CanRemark, NoneIn, RunIsFull, ResumesAfter;
    hide WillResume, LazyPlace, OnlyTightened, PagesOf, Within, PageRun;
    ghost var before := s.Dirty();
    var page, pages;
    found, page, pages := s.AcquireByteRange(None, 0);
    run := Run(page, pages);
    RunIs(run);
    if found {
      LessIsWithin(before, run, s.sectionPages);
      TakenIsRun(s, run);
    }
  }

  lemma ExcusedMore(excused: set<int>, out: Outcome, unmarked: set<int>)
    ensures excused + out.Excused() + unmarked == excused + out.(unmarked := out.unmarked + unmarked).Excused()
  {
  }

  lemma NoneMore(dirty: set<int>)
    ensures dirty + {} == dirty
  {
  }

  lemma StillTracked(cache: seq<int>, disk: seq<int>, before: set<int>, dirty: set<int>, excused: set<int>)
    requires Tracked(cache, disk, before, excused) && before <= dirty
    ensures Tracked(cache, disk, dirty, excused)
  {
  }

  /** One turn of the loop: take a run, write it, release it. */
  method Turn(s: SharedCacheMap, sec: Section, lazy: bool, alone: bool, target: Option<int>, nextLength: nat,
              hot: int -> bool, failCollisions: bool, before: Status,
              ghost excused: set<int>, ghost was: set<int>, ghost first: int, ghost beyond: int, ghost out: Outcome)
    returns (found: bool, run: Run, status: Status, verify: bool, popup: bool, zoneOk: bool, poolOk: bool, ghost out': Outcome)
    requires s.Valid() && InSection(s) && nextLength != 0 && (target.Some? ==> target.value >= 0)
    requires |sec.cache| == s.sectionPages && Tracked(sec.cache, sec.disk, s.Dirty(), excused + out.Excused())
    requires (failCollisions ==> lazy) && (!lazy ==> alone)
    requires !lazy ==> TookInOrder(was, s.Dirty(), first, beyond, out.log) && first <= End(out.log, first)
    requires !lazy ==> BeyondPage(target, nextLength) == beyond
    requires !lazy ==> FromPage(target, nextLength, 0) in {first, End(out.log, first)}
    modifies s`dirtyPages, s`pagesToWrite, s`onDirtyList, s`mbcb, s`validDataGoal, s.mbcb, s.cc, sec
    ensures s.Valid() && InSection(s)
    ensures |sec.cache| == s.sectionPages && Tracked(sec.cache, sec.disk, s.Dirty(), excused + out'.Excused())
    ensures (s.mbcb == old(s.mbcb) || fresh(s.mbcb)) && (old(s.mbcb) != null ==> s.mbcb == old(s.mbcb))
    ensures if popup then out'.failed != {} else out'.failed == out.failed
    ensures found ==> status == if out'.answers == [] then before else out'.answers[|out'.answers| - 1]
    ensures found ==> (out'.answers == [] <==> lazy && hot(run.page))
    ensures status.HardError? ==> popup || before.HardError?
    ensures s.sectionPages <= INITIAL_PAGES || (zoneOk && (alone || poolOk)) ==> out'.lost == out.lost
    ensures !lazy && !verify ==> out'.lost == out.lost
    ensures !lazy && found ==> out'.answers != [] && IsAnswered(out'.answers, run.pages) && WriteInProgress !in out'.answers
    ensures verify ==> Stops(out'.answers) && s.Dirty() + out'.lost != {}
    ensures found && !verify ==> !Stops(out'.answers)
    ensures alone ==> out'.unmarked == out.unmarked && sec.cache == old(sec.cache)
    ensures !found ==> out'.log == out.log && out'.answers == out.answers && status == before && !verify && !popup
    ensures found ==> out'.log == out.log + [run] && 0 < run.pages && (!lazy ==> first <= run.page)
    ensures lazy ==> if found then s.Quota() < old(s.Quota()) else s.Quota() == old(s.Quota()) && LazyIsDone(s)
    ensures lazy && alone ==> (found <==> old(LazyWillFind(s)))
    ensures !lazy && !found ==> s.Dirty() == old(s.Dirty()) && NoneIn(s.Dirty(), first, beyond)
    ensures !lazy && found && !verify ==> TookInOrder(was, s.Dirty(), first, beyond, out'.log)
    ensures !lazy && found && !verify ==> first <= End(out'.log, first) && |s.Dirty()| < |old(s.Dirty())|
    ensures !lazy && found && verify ==> TookInOrderThenRetry(was, s.Dirty(), first, beyond, out'.log)
  {
    hide RangesOk, Aligned, LargeBitmaps, DirtyOf, TookInOrder, TookInOrderThenRetry, Tracked, NoneIn, HasRoomFor;
    hide PagesOf, PageRun, Within, FromPage, BeyondPage, LazyIsDone, LazyWillFind, Outcome.Excused, End;
    hide Failed, Stops, Remains, IsAnswered;
    status, verify, popup, zoneOk, poolOk := before, false, false, true, true;
    ghost var mid;
    found, run, mid := TakeNext(s, sec, lazy, alone, target, nextLength, excused, was, first, out);
    out' := mid;
    if !found {
      return;
    }
    ghost var taken := s.Dirty();
    ghost var room;
    status, verify, popup, zoneOk, poolOk, room, out' := FlushRun(s, sec, run, status, lazy, hot, alone, failCollisions, excused, mid);
    AnswersOfRun(run, out'.answers, s.Dirty(), out'.lost);
    if !lazy && verify { MayRetry(was, s.Dirty(), taken, first, beyond, out'.log); }
  }

  lemma AnswersOfRun(run: Run, answers: seq<Status>, dirty: set<int>, lost: set<int>)
    requires IsAnswered(answers, run.pages) && run.pages > 0 && (Remains(answers) ==> PagesOf(run) <= dirty + lost)
    ensures Stops(answers) ==> Remains(answers)
    ensures answers != [] && WriteInProgress !in answers && Remains(answers) ==> Stops(answers)
    ensures Remains(answers) ==> dirty + lost != {}
    ensures answers != [] && answers[|answers| - 1].HardError? ==> Failed(run, answers) != {}
  {
    if Remains(answers) { assert run.page in PagesOf(run); }
    if answers != [] && answers[|answers| - 1].HardError? {
      var pages := PageAnswers(answers);
      assert pages[|pages| - 1].HardError?;
      assert run.page + (|pages| - 1) in Failed(run, answers);
    }
  }

  /** The call of CcAcquireByteRangeForWrite in the loop. */
  method TakeNext(s: SharedCacheMap, sec: Section, lazy: bool, alone: bool, target: Option<int>, nextLength: nat,
                  ghost excused: set<int>, ghost was: set<int>, ghost first: int, ghost out: Outcome)
    returns (found: bool, run: Run, ghost mid: Outcome)
    requires s.Valid() && InSection(s) && nextLength != 0 && (target.Some? ==> target.value >= 0)
    requires |sec.cache| == s.sectionPages && Tracked(sec.cache, sec.disk, s.Dirty(), excused + out.Excused())
    requires !lazy ==> alone
    requires !lazy ==> TookInOrder(was, s.Dirty(), first, BeyondPage(target, nextLength), out.log) && first <= End(out.log, first)
    requires !lazy ==> FromPage(target, nextLength, 0) in {first, End(out.log, first)}
    modifies s`dirtyPages, s`pagesToWrite, s`onDirtyList, s`mbcb, s`validDataGoal, s.mbcb, s.cc, sec`cache
    ensures s.Valid() && InSection(s) && |sec.cache| == s.sectionPages
    ensures Tracked(sec.cache, sec.disk, s.Dirty() + (if found then PagesOf(run) else {}), excused + mid.Excused())
    ensures !found ==> Tracked(sec.cache, sec.disk, s.Dirty(), excused + mid.Excused())
    ensures (s.mbcb == old(s.mbcb) || fresh(s.mbcb)) && (old(s.mbcb) != null ==> s.mbcb == old(s.mbcb))
    ensures mid == out.(unmarked := mid.unmarked) && (alone ==> mid == out && sec.cache == old(sec.cache))
    ensures found ==> IsRunOf(s, run) && s.HasRoom(run.page) && (!lazy ==> first <= run.page)
    ensures lazy ==> if found then s.Quota() < old(s.Quota()) else s.Quota() == old(s.Quota()) && LazyIsDone(s)
    ensures lazy && alone ==> (found <==> old(LazyWillFind(s)))
    ensures !lazy && !found ==> s.Dirty() == old(s.Dirty()) && NoneIn(s.Dirty(), first, BeyondPage(target, nextLength))
    ensures !lazy && found ==> TookInOrder(was, s.Dirty(), first, BeyondPage(target, nextLength), out.log + [run])
    ensures !lazy && found ==> first <= End(out.log + [run], first) && |s.Dirty()| < |old(s.Dirty())|
  {
    hide RangesOk, Aligned, LargeBitmaps, DirtyOf, TookInOrder, Tracked, NoneIn, HasRoomFor;
    hide PagesOf, PageRun, Within, FromPage, BeyondPage, LazyIsDone, LazyWillFind, Outcome.Excused, End;
    ghost var dirty := s.Dirty();
    mid := out;
    if lazy {
      ghost var unmarked;
      found, run, unmarked := LazyTurn(s, sec, alone, excused + out.Excused());
      mid := out.(unmarked := out.unmarked + unmarked);
      ExcusedMore(excused, out, unmarked);
      NoneMore(out.unmarked);
    } else {
      found, run := ExplicitTurn(s, target, nextLength, was, first, out.log);
      StillTracked(sec.cache, sec.disk, dirty, s.Dirty() + (if found then PagesOf(run) else {}), excused + out.Excused());
    }
    NoneMore(s.Dirty());
  }

  /** CcFlushCache, from the scan for dirty pages on. `hasData` is whether the file size is nonzero. Other
      writers are at work only beside the lazy writer, and only if it is not `alone`. `hot` is whether Mm finds a run's
      pages changed again, `overdue` whether so many runs have taken too long. */
  method FlushCache(s: SharedCacheMap, sec: Section, request: Request, hasData: bool, failCollisions: bool, alone: bool,
                    hot: int -> bool, overdue: int -> bool)
    returns (status: Status, requeue: bool, verify: bool, noBitmap: bool, noRange: bool, ghost out: Outcome)
    requires s.Valid() && InSection(s) && |sec.cache| == |sec.disk| == s.sectionPages
    requires (failCollisions ==> request.LazyWriter?) && (!request.LazyWriter? ==> alone)
    modifies s`dirtyPages, s`pagesToWrite, s`onDirtyList, s`mbcb, s`validDataGoal, s.mbcb, s.cc, sec
    ensures s.Valid() && InSection(s)
    ensures |sec.cache| == s.sectionPages && Tracked(sec.cache, sec.disk, s.Dirty(), old(Untracked(s, sec)) + out.Excused())
    ensures (status.HardError? <==> out.failed != {}) && AnswersOk(request, status, verify, status.HardError?, out, s.Dirty())
    ensures s.sectionPages <= INITIAL_PAGES || (!noBitmap && (alone || !noRange)) ==> out.lost == {}
    ensures !request.LazyWriter? && !verify ==> out.lost == {}
    ensures alone ==> out.unmarked == {} && sec.cache == old(sec.cache)
    ensures request.LazyWriter? ==> |out.log| <= old(s.Quota())
    ensures request.LazyWriter? && hasData && !verify && !requeue ==> s.pagesToWrite == 0 || LazyIsDone(s)
    ensures request.LazyWriter? && hasData && alone && old(s.pagesToWrite) != 0 && old(LazyWillFind(s)) ==> out.log != []
    ensures !request.LazyWriter? && !verify ==>
              TookInOrder(old(s.Dirty()), s.Dirty(), Wanted(request).0, Wanted(request).1, out.log)
    ensures !request.LazyWriter? && verify ==>
              TookInOrderThenRetry(old(s.Dirty()), s.Dirty(), Wanted(request).0, Wanted(request).1, out.log)
    ensures !request.LazyWriter? && !verify && !requeue && hasData && (request.Range? ==> request.length != 0) ==>
              NoneIn(s.Dirty(), Wanted(request).0, Wanted(request).1)
    ensures requeue <==> (request.LazyWriter? || request.FastLazyWriter?) && out.log != [] && overdue(|out.log|)
    ensures request.LazyWriter? || request.FastLazyWriter? ==> forall j | 0 < j < |out.log| :: !overdue(j)
  {
    hide RangesOk, Aligned, LargeBitmaps, DirtyOf, LoopOk, LazyIsDone, LazyWillFind, NoneIn, Wanted, AnswersOk, Within;
    hide TookInOrder, TookInOrderThenRetry, Tracked, Untracked, Outcome.Excused;
    var lazy := request.LazyWriter?;
    var l, runs := StartOfLoop(request), 0;
    requeue, out := false, Outcome([], [], {}, {}, {});
    ghost var was, excused := s.Dirty(), Untracked(s, sec);
    LoopStarts(s, sec, request, alone, l, out);
    if !(request.Range? && request.length == 0) {
      while (s.pagesToWrite != 0 || !lazy) && hasData && !l.verify
        invariant LoopOk(s, sec, request, alone, l, excused, was, out) && s.Valid() && InSection(s) && !requeue
        invariant (s.mbcb == old(s.mbcb) || fresh(s.mbcb)) && (old(s.mbcb) != null ==> s.mbcb == old(s.mbcb))
        invariant alone ==> out.unmarked == {} && sec.cache == old(sec.cache)
        invariant runs == |out.log| && (lazy || request.FastLazyWriter? ==> forall j | 0 < j <= runs :: !overdue(j))
        invariant lazy ==> |out.log| + s.Quota() <= old(s.Quota())
        invariant out.log == [] ==> !l.verify && s.pagesToWrite == old(s.pagesToWrite) && (alone && old(LazyWillFind(s)) ==> LazyWillFind(s))
        decreases if lazy then s.Quota() else if l.verify then 0 else |s.Dirty()| + 1
      {
        var found, more;
        found, more, l, out := Round(s, sec, request, hot, alone, failCollisions, l, excused, was, out);
        if !found {
          break;
        }
        runs := runs + 1;
        if lazy || request.FastLazyWriter? {
          requeue := overdue(runs);
        }
        if requeue || !more {
          break;
        }
      }
    }
    LoopIs(s, sec, request, alone, l, excused, was, out);
    status, verify, noBitmap, noRange := if l.popup then HardError else l.status, l.verify, l.noBitmap, l.noRange;
  }

  /** The local variables of CcFlushCache's loop. */
  datatype Loop = Loop(status: Status, verify: bool, popup: bool, noBitmap: bool, noRange: bool, target: Option<int>, nextLength: nat)

  function StartOfLoop(request: Request): Loop {
    var status := if request.LazyWriter? || request.FastLazyWriter? then VerifyRequired else Success;
    if request.Range? then Loop(status, false, false, false, false, Some(request.offset), request.length)
    else Loop(status, false, false, false, false, None, 1)
  }

  ghost predicate LoopOk(s: SharedCacheMap, sec: Section, request: Request, alone: bool, l: Loop,
                         excused: set<int>, was: set<int>, out: Outcome)
    reads s, s.mbcb, sec
  {
    && s.Valid() && InSection(s) && |sec.cache| == s.sectionPages
    && Tracked(sec.cache, sec.disk, s.Dirty(), excused + out.Excused())
    && AnswersOk(request, l.status, l.verify, l.popup, out, s.Dirty())
    && (s.sectionPages <= INITIAL_PAGES || (!l.noBitmap && (alone || !l.noRange)) ==> out.lost == {})
    && (!request.LazyWriter? && !l.verify ==> out.lost == {})
    && (l.target.Some? ==> l.target.value >= 0) && (l.nextLength == 0 ==> request.Range? && request.length == 0)
    && Progress(request, l.verify, was, s.Dirty(), out.log, l.target, l.nextLength)
  }

  lemma LoopStarts(s: SharedCacheMap, sec: Section, request: Request, alone: bool, l: Loop, out: Outcome)
    requires s.Valid() && InSection(s) && |sec.cache| == |sec.disk| == s.sectionPages
    requires l == StartOfLoop(request) && out == Outcome([], [], {}, {}, {})
    ensures LoopOk(s, sec, request, alone, l, Untracked(s, sec), s.Dirty(), out)
  {
    hide RangesOk, Aligned, LargeBitmaps, DirtyOf, TookInOrder, Tracked, Progress, AnswersOk, Untracked, Within;
    StartInOrder(request, s.Dirty());
    StartTracked(s, sec, out);
    NothingAnswered(request, l.status, out, s.Dirty());
  }

  lemma LoopIs(s: SharedCacheMap, sec: Section, request: Request, alone: bool, l: Loop, excused: set<int>, was: set<int>, out: Outcome)
    requires LoopOk(s, sec, request, alone, l, excused, was, out)
    ensures |sec.cache| == s.sectionPages && Tracked(sec.cache, sec.disk, s.Dirty(), excused + out.Excused())
    ensures s.sectionPages <= INITIAL_PAGES || (!l.noBitmap && (alone || !l.noRange)) ==> out.lost == {}
    ensures !request.LazyWriter? && !l.verify ==> out.lost == {}
    ensures (l.popup <==> out.failed != {}) && (l.status.HardError? ==> l.popup)
    ensures AnswersOk(request, if l.popup then HardError else l.status, l.verify, l.popup, out, s.Dirty())
    ensures !request.LazyWriter? && !l.verify ==> TookInOrder(was, s.Dirty(), Wanted(request).0, Wanted(request).1, out.log)
    ensures !request.LazyWriter? && l.verify ==> TookInOrderThenRetry(was, s.Dirty(), Wanted(request).0, Wanted(request).1, out.log)
    ensures s.Valid() && InSection(s) && Progress(request, l.verify, was, s.Dirty(), out.log, l.target, l.nextLength)
    ensures AnswersOk(request, l.status, l.verify, l.popup, out, s.Dirty())
    ensures (l.target.Some? ==> l.target.value >= 0) && (l.nextLength == 0 ==> request.Range? && request.length == 0)
  {
    hide RangesOk, Aligned, LargeBitmaps, DirtyOf, TookInOrder, TookInOrderThenRetry, Tracked, Wanted, Within;
  }

  lemma LoopGoesOn(s: SharedCacheMap, sec: Section, request: Request, alone: bool, l: Loop, excused: set<int>, was: set<int>, out: Outcome)
    requires s.Valid() && InSection(s) && Progress(request, l.verify, was, s.Dirty(), out.log, l.target, l.nextLength)
    requires |sec.cache| == s.sectionPages && Tracked(sec.cache, sec.disk, s.Dirty(), excused + out.Excused())
    requires s.sectionPages <= INITIAL_PAGES || (!l.noBitmap && (alone || !l.noRange)) ==> out.lost == {}
    requires !request.LazyWriter? && !l.verify ==> out.lost == {}
    requires AnswersOk(request, l.status, l.verify, l.popup, out, s.Dirty())
    requires (l.target.Some? ==> l.target.value >= 0) && (l.nextLength == 0 ==> request.Range? && request.length == 0)
    ensures LoopOk(s, sec, request, alone, l, excused, was, out)
  {
  }

  /** A turn, with the local variables but for the next target. */
  method TurnOf(s: SharedCacheMap, sec: Section, request: Request, hot: int -> bool, alone: bool, failCollisions: bool, l: Loop,
                ghost excused: set<int>, ghost was: set<int>, ghost out: Outcome)
    returns (found: bool, run: Run, l': Loop, ghost out': Outcome)
    requires LoopOk(s, sec, request, alone, l, excused, was, out) && !l.verify && !(request.Range? && request.length == 0)
    requires (failCollisions ==> request.LazyWriter?) && (!request.LazyWriter? ==> alone)
    modifies s`dirtyPages, s`pagesToWrite, s`onDirtyList, s`mbcb, s`validDataGoal, s.mbcb, s.cc, sec
    ensures s.Valid() && InSection(s) && l'.target == l.target && l'.nextLength == l.nextLength
    ensures |sec.cache| == s.sectionPages && Tracked(sec.cache, sec.disk, s.Dirty(), excused + out'.Excused())
    ensures s.sectionPages <= INITIAL_PAGES || (!l'.noBitmap && (alone || !l'.noRange)) ==> out'.lost == {}
    ensures !request.LazyWriter? && !l'.verify ==> out'.lost == {}
    ensures AnswersOk(request, l'.status, l'.verify, l'.popup, out', s.Dirty())
    ensures (s.mbcb == old(s.mbcb) || fresh(s.mbcb)) && (old(s.mbcb) != null ==> s.mbcb == old(s.mbcb))
    ensures alone ==> out'.unmarked == out.unmarked && sec.cache == old(sec.cache)
    ensures if found then out'.log == out.log + [run] && 0 < run.pages else out'.log == out.log && !l'.verify
    ensures request.LazyWriter? ==> if found then s.Quota() < old(s.Quota()) else s.Quota() == old(s.Quota()) && LazyIsDone(s)
    ensures request.LazyWriter? && alone ==> (found <==> old(LazyWillFind(s)))
    ensures var first, beyond := Wanted(request).0, Wanted(request).1;
            !request.LazyWriter? ==>
              if !found then s.Dirty() == old(s.Dirty()) && NoneIn(s.Dirty(), first, beyond)
              else first <= run.page &&
                   if l'.verify then TookInOrderThenRetry(was, s.Dirty(), first, beyond, out'.log)
                   else TookInOrder(was, s.Dirty(), first, beyond, out'.log) && first <= End(out'.log, first) && |s.Dirty()| < |old(s.Dirty())|
  {
    hide RangesOk, Aligned, LargeBitmaps, DirtyOf, TookInOrder, TookInOrderThenRetry, Tracked, NoneIn, Progress, Wanted, LoopOk;
    hide PagesOf, PageRun, Within, LazyIsDone, LazyWillFind, Outcome.Excused, IsAnswered, Stops, AnswersOk, FromPage, BeyondPage, End;
    ghost var dirty := s.Dirty();
    LoopIs(s, sec, request, alone, l, excused, was, out);
    ProgressIs(request, false, was, dirty, out.log, l.target, l.nextLength);
    var status, verify, bad, zoneOk, poolOk;
    found, run, status, verify, bad, zoneOk, poolOk, out' :=
      Turn(s, sec, request.LazyWriter?, alone, l.target, l.nextLength, hot, failCollisions, l.status, excused, was,
           Wanted(request).0, Wanted(request).1, out);
    NextAnswers(request, l.status, out, dirty, found, run, status, verify, l.popup, bad, out', s.Dirty());
    l' := Loop(status, verify, l.popup || bad, l.noBitmap || !zoneOk, l.noRange || !poolOk, l.target, l.nextLength);
  }

  /** One round of the loop: a turn, and what it leaves for the next. */
  method Round(s: SharedCacheMap, sec: Section, request: Request, hot: int -> bool, alone: bool, failCollisions: bool, l: Loop,
               ghost excused: set<int>, ghost was: set<int>, ghost out: Outcome)
    returns (found: bool, more: bool, l': Loop, ghost out': Outcome)
    requires LoopOk(s, sec, request, alone, l, excused, was, out) && !l.verify && !(request.Range? && request.length == 0)
    requires (failCollisions ==> request.LazyWriter?) && (!request.LazyWriter? ==> alone)
    modifies s`dirtyPages, s`pagesToWrite, s`onDirtyList, s`mbcb, s`validDataGoal, s.mbcb, s.cc, sec
    ensures LoopOk(s, sec, request, alone, l', excused, was, out') && s.Valid() && InSection(s)
    ensures (s.mbcb == old(s.mbcb) || fresh(s.mbcb)) && (old(s.mbcb) != null ==> s.mbcb == old(s.mbcb))
    ensures alone ==> out'.unmarked == out.unmarked && sec.cache == old(sec.cache)
    ensures if found then |out'.log| == |out.log| + 1 else out'.log == out.log && !l'.verify
    ensures request.LazyWriter? ==> if found then s.Quota() < old(s.Quota()) else s.Quota() == old(s.Quota()) && LazyIsDone(s)
    ensures request.LazyWriter? && alone ==> (found <==> old(LazyWillFind(s)))
    ensures !request.LazyWriter? && !l'.verify && !(found && more) ==> NoneIn(s.Dirty(), Wanted(request).0, Wanted(request).1)
    ensures !request.LazyWriter? && found && !l'.verify ==> |s.Dirty()| < |old(s.Dirty())|
    ensures found && !more ==> request.Range?
  {
    hide RangesOk, Aligned, LargeBitmaps, DirtyOf, TookInOrder, TookInOrderThenRetry, Tracked, NoneIn, Progress, Wanted, LoopOk;
    hide Within, LazyIsDone, LazyWillFind, Outcome.Excused, AnswersOk, End;
    ghost var dirty := s.Dirty();
    LoopIs(s, sec, request, alone, l, excused, was, out);
    var run;
    found, run, l', out' := TurnOf(s, sec, request, hot, alone, failCollisions, l, excused, was, out);
    more := true;
    if found {
      NextTargetIs(request, run, l'.verify, was, s.Dirty(), out'.log);
      var next := NextTarget(request, run);
      more, l' := next.0, l'.(target := next.1, nextLength := next.2);
    } else {
      SameProgress(request, was, dirty, s.Dirty(), out.log, l);
    }
    LoopGoesOn(s, sec, request, alone, l', excused, was, out');
  }

  lemma SameProgress(request: Request, was: set<int>, before: set<int>, now: set<int>, log: seq<Run>, l: Loop)
    requires Progress(request, false, was, before, log, l.target, l.nextLength) && (!request.LazyWriter? ==> now == before)
    ensures Progress(request, false, was, now, log, l.target, l.nextLength)
  {
  }

  /** What the answers of Mm to the last turn say about the flush so far. The status of an explicit flush is the
      last of them, unless pages were given up; and if they make it stop, pages are left. */
  ghost predicate AnswersOk(request: Request, status: Status, verify: bool, popup: bool, out: Outcome, dirty: set<int>) {
    && (popup <==> out.failed != {}) && (status.HardError? ==> popup)
    && (verify <==> Stops(out.answers)) && (verify ==> dirty + out.lost != {})
    && ((request.WholeFile? || request.Range?) && !popup ==>
          status == if out.answers == [] then Success else out.answers[|out.answers| - 1])
    && (!request.LazyWriter? ==> WriteInProgress !in out.answers && exists pages :: IsAnswered(out.answers, pages))
  }

  lemma NothingAnswered(request: Request, status: Status, out: Outcome, dirty: set<int>)
    requires out == Outcome([], [], {}, {}, {})
    requires status == if request.LazyWriter? || request.FastLazyWriter? then VerifyRequired else Success
    ensures AnswersOk(request, status, false, false, out, dirty)
  {
    assert IsAnswered([], 0);
  }

  lemma NextAnswers(request: Request, before: Status, done: Outcome, was: set<int>, found: bool, run: Run, status: Status,
                    verify: bool, popup: bool, bad: bool, out: Outcome, dirty: set<int>)
    requires AnswersOk(request, before, false, popup, done, was)
    requires (if bad then out.failed != {} else out.failed == done.failed) && (status.HardError? ==> bad || before.HardError?)
    requires !found ==> out.answers == done.answers && status == before && !verify
    requires found ==> (verify <==> Stops(out.answers)) && (verify ==> dirty + out.lost != {})
    requires found && !request.LazyWriter? ==> out.answers != [] && status == out.answers[|out.answers| - 1]
    requires found && !request.LazyWriter? ==> WriteInProgress !in out.answers && IsAnswered(out.answers, run.pages)
    ensures AnswersOk(request, status, verify, popup || bad, out, dirty)
  {
    hide Stops, IsAnswered;
  }

  /** The pages that differ although they are not dirty. */
  ghost function Untracked(s: SharedCacheMap, sec: Section): set<int>
    reads s, s.mbcb, sec
  {
    set p | 0 <= p < |sec.cache| && !sec.Same(p) && p !in s.Dirty()
  }

  lemma StartTracked(s: SharedCacheMap, sec: Section, out: Outcome)
    requires out == Outcome([], [], {}, {}, {}) && |sec.cache| == |sec.disk|
    ensures Tracked(sec.cache, sec.disk, s.Dirty(), Untracked(s, sec) + out.Excused())
  {
  }

  /** How far the flush has come, and where it goes on. */
  ghost predicate Progress(request: Request, verify: bool, was: set<int>, now: set<int>, log: seq<Run>, target: Option<int>, nextLength: nat) {
    var first, beyond := Wanted(request).0, Wanted(request).1;
    request.LazyWriter? ||
    (if verify then TookInOrderThenRetry(was, now, first, beyond, log)
     else TookInOrder(was, now, first, beyond, log) && first <= End(log, first) &&
          BeyondPage(target, nextLength) == beyond && FromPage(target, nextLength, 0) in {first, End(log, first)})
  }

  lemma ProgressIs(request: Request, verify: bool, was: set<int>, now: set<int>, log: seq<Run>, target: Option<int>, nextLength: nat)
    requires Progress(request, verify, was, now, log, target, nextLength)
    ensures var first, beyond := Wanted(request).0, Wanted(request).1;
            && (!request.LazyWriter? && verify ==> TookInOrderThenRetry(was, now, first, beyond, log))
            && (!request.LazyWriter? && !verify ==> TookInOrder(was, now, first, beyond, log) && first <= End(log, first))
            && (!request.LazyWriter? && !verify ==>
                  BeyondPage(target, nextLength) == beyond && FromPage(target, nextLength, 0) in {first, End(log, first)})
  {
  }

  lemma StartInOrder(request: Request, dirty: set<int>)
    ensures TookInOrder(dirty, dirty, Wanted(request).0, Wanted(request).1, [])
    ensures request.Range? ==> Progress(request, false, dirty, dirty, [], Some(request.offset), request.length)
    ensures !request.Range? ==> Progress(request, false, dirty, dirty, [], None, 1)
  {
  }

  /** Whether anything is left of the range of an explicit flush, and what it asks for next. */
  function NextTarget(request: Request, run: Run): (bool, Option<int>, int) {
    if !request.Range? then (true, None, 4096 * run.pages)
    else
      var next, end := 4096 * (run.page + run.pages), request.offset + request.length;
      if end <= next then (false, Some(request.offset), request.length) else (true, Some(next), end - next)
  }

  lemma NextTargetIs(request: Request, run: Run, verify: bool, was: set<int>, now: set<int>, log: seq<Run>)
    requires 0 < run.pages && (!request.LazyWriter? ==> Wanted(request).0 <= run.page) && log != [] && log[|log| - 1] == run
    requires var first, beyond := Wanted(request).0, Wanted(request).1;
             && (!request.LazyWriter? && verify ==> TookInOrderThenRetry(was, now, first, beyond, log))
             && (!request.LazyWriter? && !verify ==> TookInOrder(was, now, first, beyond, log) && first <= End(log, first))
    ensures var (more, target, nextLength) := NextTarget(request, run);
            && nextLength >= 0 && Progress(request, verify, was, now, log, target, nextLength)
            && (target.Some? ==> target.value >= 0) && (nextLength == 0 ==> request.Range? && request.length == 0)
            && (!more ==> request.Range? && (!verify ==> NoneIn(now, Wanted(request).0, Wanted(request).1)))
  {
    hide TookInOrder, TookInOrderThenRetry;
    if !NextTarget(request, run).0 && !verify {
      TookUpToEnd(was, now, Wanted(request).0, Wanted(request).1, log);
    }
  }

  /** A whole-file flush that no retryable error stopped: its runs are disjoint and make up the original dirty
      set, and nothing is dirty any more. */
  lemma WholeFileEndsClean(was: set<int>, now: set<int>, log: seq<Run>, pages: int)
    requires Within(was, pages) && TookInOrder(was, now, 0, MAXLONGLONG, log) && NoneIn(now, 0, MAXLONGLONG)
    ensures now == {} && Union(log) == was
    ensures forall i, j | 0 <= i < j < |log| :: PagesOf(log[i]) !! PagesOf(log[j])
  {
    assert forall p | p in was :: 0 <= p < MAXLONGLONG;
    assert now <= was;
  }

  /** The last write for the run was a success, but an earlier one was to be retried. */
  predicate Masked(answers: seq<Status>) {
    Stops(answers) && answers != [] && answers[|answers| - 1].Success?
  }

  /** What the status alone tells the caller of a flush of the whole file, with nothing untracked to begin with. An
      error means that pages were given up, a retryable error that pages remain. A success means that the disk
      holds what memory holds and nothing is dirty, unless the last run was retried page by page and a retryable
      error came before its last page: then, too, pages remain. */
  method FlushWholeFile(s: SharedCacheMap, sec: Section) returns (status: Status, ghost out: Outcome)
    requires s.Valid() && InSection(s) && |sec.cache| == |sec.disk| == s.sectionPages && Untracked(s, sec) == {}
    modifies s`dirtyPages, s`pagesToWrite, s`onDirtyList, s`mbcb, s`validDataGoal, s.mbcb, s.cc, sec
    ensures s.Valid() && sec.cache == old(sec.cache)
    ensures status.HardError? <==> out.failed != {}
    ensures RetryError(status) ==> s.Dirty() + out.lost != {}
    ensures status.Success? ==>
              if Masked(out.answers) then s.Dirty() + out.lost != {} else sec.disk == sec.cache && s.Dirty() == {}
  {
    hide RangesOk, Aligned, LargeBitmaps, DirtyOf, TookInOrder, TookInOrderThenRetry, Within, Tracked, NoneIn, Untracked;
    ghost var was := s.Dirty();
    var requeue, verify, noBitmap, noRange;
    status, requeue, verify, noBitmap, noRange, out := FlushCache(s, sec, WholeFile, true, false, true, _ => false, _ => false);
    LastAnswer(out.answers);
    if !status.HardError? && !verify {
      WholeFileEndsClean(was, s.Dirty(), out.log, s.sectionPages);
      CleanMeansWritten(sec.cache, sec.disk, out);
    }
  }

  lemma LastAnswer(answers: seq<Status>)
    requires WriteInProgress !in answers && exists pages :: IsAnswered(answers, pages)
    ensures answers != [] && RetryError(answers[|answers| - 1]) ==> Stops(answers)
  {
    if answers != [] && RetryError(answers[|answers| - 1]) {
      var pages := PageAnswers(answers);
      if answers[0].HardError? { assert RetryError(pages[|pages| - 1]); }
    }
  }

  lemma CleanMeansWritten(cache: seq<int>, disk: seq<int>, out: Outcome)
    requires Tracked(cache, disk, {}, {} + out.Excused()) && out.failed == out.lost == out.unmarked == {}
    ensures cache == disk
  {
  }

  /** Two calls of the lazy writer with nothing in between: at most one of them comes up empty. */
  method TwoLazyCalls(s: SharedCacheMap) returns (first: bool, second: bool)
    requires s.Valid()
    modifies s`dirtyPages, s`pagesToWrite, s`onDirtyList, s.mbcb, s.cc
    ensures old(s.mbcb != null && s.Dirty() != {} && s.Quota() != 0) ==> first || second
    ensures !first && second ==> s.Dirty() < old(s.Dirty())
  {
    hide RangesOk, Aligned, LargeBitmaps, DirtyOf, CanRemark, NoneIn, RunIsFull, ResumesAfter, LazyPlace, OnlyTightened;
    hide WillResume, PageRun;
    var page, pages;
    first, page, pages := s.AcquireByteRange(None, 0);
    ghost var between := s.Dirty();
    second, page, pages := s.AcquireByteRange(None, 0);
    if second { SomethingTaken(between, page, pages); }
  }

  lemma SomethingTaken(dirty: set<int>, page: int, pages: int)
    requires pages > 0 && PageRun(page, page + pages) <= dirty
    ensures dirty - PageRun(page, page + pages) < dirty
  {
    assert page in PageRun(page, page + pages);
  }
}
