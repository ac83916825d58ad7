# Dirty data in the cache manager

The cache manager of the Windows Research Kernel keeps the set of dirty pages of each file in three forms at
once: a sorted list of recycled bitmap ranges with first and last hints, a descending list of Bcbs, and running
counters. Writers mark pages in it, the flush code takes runs out of it and puts failures back. This project
models that code and proves that each form is the plain set of pages it stands for, that no dirty page drops out
of it unaccounted for, and exactly when one can be lost track of. Beside it stand the worker threads and the scan
that drive the flushing, the write throttle, the registry's slab allocator, and the bakery lock of the instructor
supplement.

| file | what it models |
|---|---|
| `Bakery.dfy` | the bakery lock, every shared read and write a step of its own |
| `CacheGlobals.dfy` | the counters that all streams share |
| `MaskBcb.dfy`, `MaskRuns.dfy`, `MaskScan.dfy`, `MaskStream.dfy` | the mask Bcb: ranges, setting and clearing runs, the scan for the next run, and the routines on a stream |
| `FlushCache.dfy` | the flush loop on a user data stream |
| `NoLoss.dfy`, `MaskSteps.dfy` | writers and flushers interleaved; and the mask routines as steps of it |
| `BcbList.dfy`, `LogFlush.dfy` | pinned data: the Bcb list, and flushing it behind the log |
| `DirtyCounters.dfy`, `CounterSteps.dfy` | the counters over all streams; and the routines as steps of it |
| `WorkQueue.dfy`, `LazyScan.dfy` | the lazy writer's threads, and its scan of the ring of dirty streams |
| `DeferredWrites.dfy` | the write throttle |
| `MapAndCopy.dfy` | copying a caller's bytes into the cache |
| `SlabAllocator.dfy` | the registry's pool allocator |

`dafny verify dfyconfig.toml` checks everything. Classes stand where the C code changes a structure in place,
and their methods are proved against functions and sets; protocols are state machines whose runs are quantified
over. Choices that the code leaves to others (what Mm answers, whether an allocation succeeds, who runs next) are
parameters where a result depends on them, and otherwise nondeterministic.

Sizes are those of the 32-bit build: 4 KB pages, 512-byte bitmaps for 4096 pages, an initial bitmap for 512, views
of 256 KB, writes of at most 64 KB. Page numbers are below 2^32, as the casts to ULONG presume.

## Where the code differs from what is said about it

- A comment in `CcFindBitmapRangeToDirty` puts three ranges at 384 MB; with the constants of `cc.h` they are 48 MB.
- `CcAcquireByteRangeForWrite` says it returns ranges in strictly increasing order. An explicit flush gets them
  so; the lazy writer wraps. It may also answer FALSE once with pages still dirty (`LocateForLazyWriter` says
  exactly when, `TwoLazyCalls` that the next call succeeds).
- `CcFlushCache` marks pages again that it could not write, but the mark can fail silently, for two reasons. On a
  section over 2 MB it asks the zone for a bitmap, although none is needed. And in the large form other writers may
  have recycled the run's range while it was being written: if then every range is dirty, none of them in the run's
  window, and the pool is empty, there is no range to mark (`RemarkIff` is the exact condition, `LostRunExample` a
  case of the second reason, `ReleaseRun` what is lost). `DropsSilentlyIff` and the steps in `MaskSteps` say when
  that loses track of data that is not on the disk, and `SilentDropExists` shows a run; Mm's own writer is what is
  left then.
- `CcFlushCache` says it returns the first error. The status of a whole-file flush may be a success with pages left,
  because a retryable error on one page is overwritten by the success of a later one (`FlushWholeFile` says exactly
  when).
- The 32-bit loop of `CcFindBcb` ignores the high half of the requested end. `LoopsAgreeIff` says exactly when that
  changes its answer, and `NewBcbFitsIff` when `CcPinFileData` then creates a Bcb that overlaps another, or, by the
  32-bit sums of its length, one that covers nothing. `MissesNextExample` and `EmptyExample` give such requests.
- `CcWorkerThread` says an EventSet fires after all preceding work items have completed. Each has completed a run;
  one that asked to be requeued is overtaken (`RequeuedIsOvertaken`).
- The throttle that keeps posts from waking threads while an EventSet waits is one flag for all EventSets. The
  thread that comes from an earlier EventSet clears it although a later one is waiting, and if that thread then
  finds express work, the next post wakes a thread (`EarlierEventSetDrops`). The throttle holds until the EventSet
  is taken if and only if there is no such thread when it is set (`ThrottleHolds`, `ThrottleCanDrop`); the EventSet
  is reached in a bounded number of steps either way (`EventSetIsReached`).
- The log is flushed first only for streams with modified writing disabled and write-behind enabled. On others the
  Bcb is set clean, and so loses its Lsn, before it is looked at (`AcquireBcbs`, the clause on streams it does not own).
- Metadata whose write is to be retried is set clean and then dirty again without an Lsn: it stays dirty, but no
  longer knows the Lsns it was set dirty with (`FatesOfWritten`). By then the log is on the disk up to
  those (`AcquireBcbs`).
- `CcCanIWrite` lets new writes queue behind waiting ones, but not those that are exempt or say that they are
  retrying (`MayPassIff`), and `CcDeferWrite` posts a write at once when it has no memory to queue it.
- With write-behind disabled a first dirty Bcb leaves its stream off the dirty list (`FirstDirtyPageMoves`).

## Model

| member | source | states |
|---|---|---|
| Bakery.MutualExclusion | CurriculumResourceKit-CRK/CRKInstructorSupplement/UnitOS3/OS3-prog/bakery.c:33-53 | in every run of single shared reads and writes, for any number of threads, no two threads are between Enter's return and Leave |
| Bakery.FirstComeFirstServed | CurriculumResourceKit-CRK/CRKInstructorSupplement/UnitOS3/OS3-prog/bakery.c:35-46 | a thread whose ticket was written when another set `choosing` is inside, and leaves, before that one gets in |
| Bakery.ElderStays | CurriculumResourceKit-CRK/CRKInstructorSupplement/UnitOS3/OS3-prog/bakery.c:36-41 | the ghost order used above is exact: while a thread keeps the ticket it held when another set `choosing`, it counts as that one's elder |
| Bakery.LeaverIsNotReread | CurriculumResourceKit-CRK/CRKInstructorSupplement/UnitOS3/OS3-prog/bakery.c:39 | why reading `number[j]` twice is harmless: once the maximum covers an elder, the slot about to be read again cannot be emptied, so that a maximum drops only while it covers none |
| Bakery.StepPair | CurriculumResourceKit-CRK/CRKInstructorSupplement/UnitOS3/OS3-prog/bakery.c:33-53 | every step of every thread keeps the relation between any two threads that implies the order of service |
| Bakery.StepKeepsInv | CurriculumResourceKit-CRK/CRKInstructorSupplement/UnitOS3/OS3-prog/bakery.c:33-53 | the invariant is kept by every step |
| Bakery.LeastWaiterEnters | CurriculumResourceKit-CRK/CRKInstructorSupplement/UnitOS3/OS3-prog/bakery.c:43-46 | when nobody is inside or choosing, the waiter with the least (ticket, id) gets in by its own steps alone |
| Bakery.UnblockedEnters | CurriculumResourceKit-CRK/CRKInstructorSupplement/UnitOS3/OS3-prog/bakery.c:43-46 | a waiter that neither loop's guard holds back walks through in finitely many steps |
| Bakery.DoorwayEnds | CurriculumResourceKit-CRK/CRKInstructorSupplement/UnitOS3/OS3-prog/bakery.c:36-42 | choosing a ticket takes finitely many steps of the thread itself and disturbs nobody's place |
| Bakery.NoDeadlock | CurriculumResourceKit-CRK/CRKInstructorSupplement/UnitOS3/OS3-prog/bakery.c:33-53 | from every reachable state in which some thread is trying to enter, the run can go on so that one gets in |
| MaskBcb.SumIsCount | WindowsResearchKernel-WRK/WRK-v1.2/base/ntos/cache/cc.h:790-829 | the Mbcb's page count (the sum over its ranges) is the number of set bits, because ranges hold pairwise different pages |
| MaskBcb.OneRangePerPage | WindowsResearchKernel-WRK/WRK-v1.2/base/ntos/cache/cachesub.c:1089-1106 | a page belongs to at most one range of the sorted list |
| MaskBcb.CleanRangeIsZero | WindowsResearchKernel-WRK/WRK-v1.2/base/ntos/cache/cachesub.c:1097-1140 | a range with no dirty pages, as it is recycled, has an all-zero bitmap |
| MaskBcb.PromotedRanges | WindowsResearchKernel-WRK/WRK-v1.2/base/ntos/cache/cachesub.c:1254-1275 | the switch to the large form keeps the dirty set, the counts, order and hints |
| MaskBcb.ZeroMemoryIsACleanRange | WindowsResearchKernel-WRK/WRK-v1.2/base/ntos/cache/cachesub.c:1250-1275 | the memory of the small bitmap, once zero, is exactly two clean ranges without a bitmap: what promotion relies on |
| MaskBcb.MovedBits | WindowsResearchKernel-WRK/WRK-v1.2/base/ntos/cache/cachesub.c:1258-1266 | the bits moved out of the small bitmap are the same pages, and the memory left is zero whether or not anything was copied |
| MaskBcb.Relinked | WindowsResearchKernel-WRK/WRK-v1.2/base/ntos/cache/cachesub.c:1108-1140 | recycling a clean range, or adding one, at the insertion point found keeps the list sorted, its pages and its counts |
| MaskBcb.InsertPlace | WindowsResearchKernel-WRK/WRK-v1.2/base/ntos/cache/cachesub.c:1092-1130 | the insertion point found with the recycled range still in the list is right for the list without it |
| MaskBcb.BitmapsRelinked | WindowsResearchKernel-WRK/WRK-v1.2/base/ntos/cache/cachesub.c:1129-1140 | the caller's bitmap is consumed exactly if the range taken had none |
| MaskBcb.UpdateRange | WindowsResearchKernel-WRK/WRK-v1.2/base/ntos/cache/cachesub.c:1288-1325 | changing one range changes the whole dirty set and count by exactly what it changes in that range |
| MaskBcb.Mbcb.constructor | WindowsResearchKernel-WRK/WRK-v1.2/base/ntos/cache/cachesub.c:1242-1252 | a new Mbcb is the empty set in the small form |
| MaskBcb.Mbcb.Promote | WindowsResearchKernel-WRK/WRK-v1.2/base/ntos/cache/cachesub.c:1254-1275 | the large form represents the same dirty set, with two more, unused, ranges |
| MaskBcb.Mbcb.SearchRangeToDirty | WindowsResearchKernel-WRK/WRK-v1.2/base/ntos/cache/cachesub.c:1082-1106 | the walk finds the exact match, or the lowest clean range and the place behind all lower bases |
| MaskBcb.Mbcb.Relink | WindowsResearchKernel-WRK/WRK-v1.2/base/ntos/cache/cachesub.c:1108-1142 | the range returned is based where the page needs it, in order, and the dirty set is untouched |
| MaskBcb.Mbcb.FindRangeToDirty | WindowsResearchKernel-WRK/WRK-v1.2/base/ntos/cache/cachesub.c:1060-1143 | returns a range for the page without changing the dirty set; fails if and only if no range matches, none is clean, and the pool is empty |
| MaskBcb.Mbcb.FindRangeToClean | WindowsResearchKernel-WRK/WRK-v1.2/base/ntos/cache/cachesub.c:1146-1176 | returns the first dirty range not wholly below the page, else wraps to the first dirty range, and terminates |
| MaskBcb.Mbcb.Replace | WindowsResearchKernel-WRK/WRK-v1.2/base/ntos/cache/cachesub.c:1308-1316 | the Mbcb's count follows a change of one range |
| MaskRuns.SetRun | WindowsResearchKernel-WRK/WRK-v1.2/base/ntos/cache/cachesub.c:1287-1325 | setting bits ULONG by ULONG yields set union with the page run, charges exactly the bits that were clear, and moves each hint out to the run's end and no further |
| MaskRuns.ClearRun | WindowsResearchKernel-WRK/WRK-v1.2/base/ntos/cache/cachesub.c:1696-1719 | clears a run of consecutive set bits and nothing else, as long as the limits allow |
| MaskRuns.ReducedIsOk | WindowsResearchKernel-WRK/WRK-v1.2/base/ntos/cache/cachesub.c:1728-1761 | after a run is taken the count and hints of the range are right again |
| MaskRuns.ReduceRange | WindowsResearchKernel-WRK/WRK-v1.2/base/ntos/cache/cachesub.c:1696-1761 | the range loses exactly the run; the run ends at a clean page unless a limit ends it |
| MaskScan.ScanRange | WindowsResearchKernel-WRK/WRK-v1.2/base/ntos/cache/cachesub.c:1614-1677 | scanning whole ULONGs and then bits finds the first set bit from the starting bit on, if there is one |
| MaskScan.NextDirtyRange | WindowsResearchKernel-WRK/WRK-v1.2/base/ntos/cache/cachesub.c:1643-1653 | the next dirty range on the list; only the lazy writer wraps, and then nothing later is dirty |
| MaskScan.StartOfScan | WindowsResearchKernel-WRK/WRK-v1.2/base/ntos/cache/cachesub.c:1570-1617 | where the scan starts, or that the target has no dirty page |
| MaskScan.NextRangeScan | WindowsResearchKernel-WRK/WRK-v1.2/base/ntos/cache/cachesub.c:1641-1677 | carrying on in the next range finds the next dirty page, or there is none up to the end of the target |
| MaskScan.MissedByFlush | WindowsResearchKernel-WRK/WRK-v1.2/base/ntos/cache/cachesub.c:1627-1684 | an explicit flush that misses in its first range finds the least dirty page of its target, or there is none |
| MaskScan.MissedByLazyWriter | WindowsResearchKernel-WRK/WRK-v1.2/base/ntos/cache/cachesub.c:1632-1667 | a lazy scan that misses tightens one last-page hint, never below zero, and if it then gives up the hints send the next call to the first dirty page |
| MaskScan.LocateForFlush | WindowsResearchKernel-WRK/WRK-v1.2/base/ntos/cache/cachesub.c:1614-1684 | an explicit flush finds the least dirty page of its target, and answers nothing only if there is none |
| MaskScan.LocateForLazyWriter | WindowsResearchKernel-WRK/WRK-v1.2/base/ntos/cache/cachesub.c:1588-1677 | the lazy writer finds a page exactly when one is dirty at or beyond the resume point, or the hints make it start over |
| MaskScan.LocateRun | WindowsResearchKernel-WRK/WRK-v1.2/base/ntos/cache/cachesub.c:1563-1694 | both of these, for CcAcquireByteRangeForWrite |
| MaskStream.SharedCacheMap.PrepareMask | WindowsResearchKernel-WRK/WRK-v1.2/base/ntos/cache/cachesub.c:1219-1281 | first allocation and promotion change nothing in the set; exactly which allocations they need |
| MaskStream.SharedCacheMap.MarkPages | WindowsResearchKernel-WRK/WRK-v1.2/base/ntos/cache/cachesub.c:1287-1325 | marking unites the set with the run, and the stream's and the total count move together; a first dirty page puts the stream on the dirty list |
| MaskStream.SharedCacheMap.SetPagesDirty | WindowsResearchKernel-WRK/WRK-v1.2/base/ntos/cache/cachesub.c:1219-1335 | adds exactly the pages, or nothing, by the allocations that the call turns out to need; and every bitmap taken from the zone is in a range or back |
| MaskStream.SharedCacheMap.SetDirtyInMask | WindowsResearchKernel-WRK/WRK-v1.2/base/ntos/cache/cachesub.c:1179-1344 | refines set union: exactly pages first to last are added, if and only if the needed allocations succeed, and else nothing changes |
| MaskStream.SharedCacheMap.CounterIsCount | WindowsResearchKernel-WRK/WRK-v1.2/base/ntos/cache/cc.h:1009-1021 | a stream's DirtyPages is the size of its dirty set plus what it charged for other pages |
| MaskStream.TakeRun | WindowsResearchKernel-WRK/WRK-v1.2/base/ntos/cache/cachesub.c:1696-1761 | a full run of dirty pages leaves the set, and the range it came from can take it back |
| MaskStream.TakeFromMask | WindowsResearchKernel-WRK/WRK-v1.2/base/ntos/cache/cachesub.c:1563-1768 | finding and taking a run, with the scan's quota and resume point |
| MaskStream.SharedCacheMap.AcquireByteRange | WindowsResearchKernel-WRK/WRK-v1.2/base/ntos/cache/cachesub.c:1563-1788 | an explicit flush gets the run at the least dirty page of its target, and FALSE only if that is clean; the lazy writer's FALSE leaves the set alone and guarantees the next answer; the run is as long as it may be; a run that empties its window moves the resume point to the next window, otherwise the lazy writer resumes behind the run and an explicit flush moves nothing; counters and lists follow |
| MaskStream.SharedCacheMap.DeleteMbcb | WindowsResearchKernel-WRK/WRK-v1.2/base/ntos/cache/fssup.c:1494-1558 | deducts exactly the pages that were dirty, and gives back to the zone every bitmap that came from it, zeroed |
| FlushCache.Section.Flush | WindowsResearchKernel-WRK/WRK-v1.2/base/ntos/cache/cachesub.c:2680 | a write may fail in any way and tear its pages; if it succeeds they are the same in memory and on the disk |
| FlushCache.RetryPages | WindowsResearchKernel-WRK/WRK-v1.2/base/ntos/cache/cachesub.c:2714-2735 | page by page, each page answered with a success is on the disk; the flush is to stop exactly if some answer is retryable, and an error is reported exactly if some answer is hard; the status is the last answer |
| FlushCache.WriteRun | WindowsResearchKernel-WRK/WRK-v1.2/base/ntos/cache/cachesub.c:2638-2738 | a run is to be marked again exactly if it was a hot spot, collided, or some answer was retryable; else each page of it is on the disk or was given up |
| FlushCache.RemarkIff | WindowsResearchKernel-WRK/WRK-v1.2/base/ntos/cache/cachesub.c:1092-1127 | marking a run again that was taken before succeeds if and only if the zone has a bitmap (asked for on sections over 2 MB) and, in the large form, the pool has a range structure, or the run's window has dirty pages, or there are more ranges than dirty windows |
| MaskBcb.HasRoomIff | WindowsResearchKernel-WRK/WRK-v1.2/base/ntos/cache/cachesub.c:1092-1118 | no range need be allocated for a page if and only if its window has dirty pages or fewer windows have than there are ranges |
| FlushCache.ReleaseRun | WindowsResearchKernel-WRK/WRK-v1.2/base/ntos/cache/cachesub.c:2038-2047 | the pages of a run to be marked again are dirty again, or all lost, the latter exactly if the run cannot be marked in the state that other writers have left |
| FlushCache.LostRunExample | WindowsResearchKernel-WRK/WRK-v1.2/base/ntos/cache/cachesub.c:1097-1127 | with bitmaps to spare a run is lost: another writer has recycled its range during the write, all others are dirty, and the pool is empty |
| FlushCache.StoreAndMark | WindowsResearchKernel-WRK/WRK-v1.2/base/ntos/cache/cachesub.c:3431-3530 | a writer that stores and then marks leaves only marked or unmarkable pages differing |
| FlushCache.Written | WindowsResearchKernel-WRK/WRK-v1.2/base/ntos/cache/cachesub.c:2671-2738 | after the write every page of the run that differs from the disk is held to be marked again, or given up |
| FlushCache.FlushRun | WindowsResearchKernel-WRK/WRK-v1.2/base/ntos/cache/cachesub.c:2636-2756 | the run is left unwritten exactly if the lazy writer finds it a hot spot; other writers acting before and after the write, every differing page is dirty or accounted for; the run is lost exactly if it remains and the zone is empty on a section over 2 MB, or the pool is and the run has neither a range nor a clean one; never on sections up to 2 MB, and when alone for the first reason only |
| FlushCache.TookNext | WindowsResearchKernel-WRK/WRK-v1.2/base/ntos/cache/cachesub.c:2630-2783 | an explicit flush takes ascending disjoint runs |
| FlushCache.LazyTurn | WindowsResearchKernel-WRK/WRK-v1.2/base/ntos/cache/cachesub.c:2630-2635 | among other writers, the lazy writer's turn finds something exactly when it must, and else leaves hints by which the next call does |
| FlushCache.FlushCache | WindowsResearchKernel-WRK/WRK-v1.2/base/ntos/cache/cachesub.c:2598-2814 | no page is dropped silently: every page that differs from the disk is dirty, reported in the status, or lost to a failed mark (never on small sections); the lazy writer makes progress and stops after at most PagesToWrite runs however much others dirty, between its turns and during them, asking to be requeued exactly when its time is up; an explicit flush terminates and takes its target in order, and its status is the last answer of Mm unless pages were given up |
| FlushCache.WholeFileEndsClean | WindowsResearchKernel-WRK/WRK-v1.2/base/ntos/cache/cachesub.c:2598-2814 | a whole-file flush that no retryable error stopped took disjoint runs that make up the original dirty set, and leaves nothing dirty |
| FlushCache.FlushWholeFile | WindowsResearchKernel-WRK/WRK-v1.2/base/ntos/cache/cachesub.c:2419-2814 | what the status alone tells: an error exactly if pages were given up; a retryable error only if pages are left; a success means that everything is on the disk and nothing dirty, except exactly if the last run was retried page by page and a retryable error came before its last page |
| FlushCache.TwoLazyCalls | WindowsResearchKernel-WRK/WRK-v1.2/base/ntos/cache/cachesub.c:1588-1668 | with dirty pages and a quota, two calls of the lazy writer never both come up empty |
| NoLoss.StepCovers | WindowsResearchKernel-WRK/WRK-v1.2/base/ntos/cache/cachesub.c:1696-1731 | no single step of a writer or flusher leaves a page uncovered on which cache and disk differ |
| NoLoss.NothingIsLost | WindowsResearchKernel-WRK/WRK-v1.2/base/ntos/cache/cachesub.c:2630-2783 | in every interleaving, wherever cache and disk differ the page is marked, has a writer about to mark it, is held by a flusher, was given up with a hard error, or could not be marked |
| NoLoss.AtRestNothingDiffers | WindowsResearchKernel-WRK/WRK-v1.2/base/ntos/cache/cachesub.c:2038-2054 | when all is quiet, clean, and nothing failed, the disk holds what the cache holds |
| NoLoss.AllMarked | WindowsResearchKernel-WRK/WRK-v1.2/base/ntos/cache/cachesub.c:1184-1189 | without a failed mark nothing goes unmarked, in any run |
| NoLoss.DropsSilentlyIff | WindowsResearchKernel-WRK/WRK-v1.2/base/ntos/cache/cachesub.c:1184-1189 | a step drops a page silently if and only if it fails to mark a page that differs from the disk and that nobody else answers for |
| MaskSteps.MarkStep | WindowsResearchKernel-WRK/WRK-v1.2/base/ntos/cache/cachesub.c:1179-1344 | CcSetDirtyInMask does the writer's mark, which fails exactly if the allocations that it needs do; so it drops a page silently exactly if those fail, the page differs, and nobody else answers for it |
| MaskSteps.ReleaseStep | WindowsResearchKernel-WRK/WRK-v1.2/base/ntos/cache/cachesub.c:2038-2047 | CcReleaseByteRangeFromWrite does the flusher's release, with the exact condition under which its mark fails |
| MaskSteps.AcquireStep | WindowsResearchKernel-WRK/WRK-v1.2/base/ntos/cache/cachesub.c:1563-1788 | what CcAcquireByteRangeForWrite takes from the mask is an acquisition by a flusher |
| NoLoss.SilentDropExists | WindowsResearchKernel-WRK/WRK-v1.2/base/ntos/cache/cachesub.c:1184-1189 | a run in which that happens, with no error reported |
| WorkQueue.WorkQueues.PostWorkQueue | WindowsResearchKernel-WRK/WRK-v1.2/base/ntos/cache/lazyrite.c:414-448 | the code of a post is the step, and keeps the invariant |
| WorkQueue.WorkQueues.TakeWork | WindowsResearchKernel-WRK/WRK-v1.2/base/ntos/cache/lazyrite.c:472-506 | the code of a section of CcWorkerThread, or its last section, is the step, and keeps the invariant; what the step must do is said by the barrier, the throttle and the bounds below |
| WorkQueue.WorkQueues.FinishWork | WindowsResearchKernel-WRK/WRK-v1.2/base/ntos/cache/lazyrite.c:508-547 | so is the end of an item's run |
| WorkQueue.LastActive | WindowsResearchKernel-WRK/WRK-v1.2/base/ntos/cache/lazyrite.c:498-501 | when one thread is counted active, all others are on the idle list |
| WorkQueue.StepKeepsCount | WindowsResearchKernel-WRK/WRK-v1.2/base/ntos/cache/lazyrite.c:431-439 | the idle list and the active count stay exact |
| WorkQueue.StepKeepsInv | WindowsResearchKernel-WRK/WRK-v1.2/base/ntos/cache/lazyrite.c:472-554 | every section under the work queue lock keeps counts, order, the throttle's reason, and work attended to |
| WorkQueue.NoWorkIsStranded | WindowsResearchKernel-WRK/WRK-v1.2/base/ntos/cache/lazyrite.c:414-448 | in every run, active and idle threads are all the threads, the throttle is on only for an EventSet queued or running, and a nonempty queue has an active thread |
| WorkQueue.EventSetIsABarrier | WindowsResearchKernel-WRK/WRK-v1.2/base/ntos/cache/lazyrite.c:497-504 | when an EventSet is taken, no other thread is active and everything posted before it has completed a run; what of that is outstanding is back on the queue |
| WorkQueue.EventSetFiresAfter | WindowsResearchKernel-WRK/WRK-v1.2/base/ntos/cache/lazyrite.c:472-529 | the same read off a run: an item posted before the EventSet has ended a run before the EventSet is taken |
| WorkQueue.RanHasEnded | WindowsResearchKernel-WRK/WRK-v1.2/base/ntos/cache/lazyrite.c:508-547 | what counts as run was ended by some thread |
| WorkQueue.RequeuedIsOvertaken | WindowsResearchKernel-WRK/WRK-v1.2/base/ntos/cache/lazyrite.c:480-484 | a requeued item is still outstanding when a later EventSet is taken |
| WorkQueue.Drains | WindowsResearchKernel-WRK/WRK-v1.2/base/ntos/cache/lazyrite.c:472-554 | with no posts and no requeues the threads take at most a computed number of steps |
| WorkQueue.AllIdleAllDone | WindowsResearchKernel-WRK/WRK-v1.2/base/ntos/cache/lazyrite.c:486-493 | when all threads are idle, everything posted has run, and the throttle is off |
| WorkQueue.StopsAtEventSet | WindowsResearchKernel-WRK/WRK-v1.2/base/ntos/cache/lazyrite.c:497-501 | in every run a thread goes idle with work on the queues only at an EventSet, the express queue empty and other threads active, and leaves the throttle on |
| WorkQueue.ThrottleHolds | WindowsResearchKernel-WRK/WRK-v1.2/base/ntos/cache/lazyrite.c:431-439 | from there until the EventSet is taken no post wakes a thread and the active count never rises, if no other thread was at, or still to drop the throttle for, an earlier EventSet |
| WorkQueue.ThrottleCanDrop | WindowsResearchKernel-WRK/WRK-v1.2/base/ntos/cache/lazyrite.c:475-478 | and only if: otherwise the run can go on so that the throttle is dropped and a post wakes a thread while the EventSet waits |
| WorkQueue.EarlierEventSetDrops | WindowsResearchKernel-WRK/WRK-v1.2/base/ntos/cache/lazyrite.c:475-478 | a run of two threads in which that happens |
| WorkQueue.EventSetIsReached | WindowsResearchKernel-WRK/WRK-v1.2/base/ntos/cache/lazyrite.c:472-506 | whatever is posted to the regular queue, the threads take a bounded number of their own steps before one takes the EventSet at its head; each item that comes onto the express queue meanwhile allows three more |
| WorkQueue.SomeThreadCanStep | WindowsResearchKernel-WRK/WRK-v1.2/base/ntos/cache/lazyrite.c:472-506 | while an EventSet waits, some thread can take such a step |
| BcbList.FindBcb64 | WindowsResearchKernel-WRK/WRK-v1.2/base/ntos/cache/cachesub.c:3041-3068 | the 64-bit loop stops at the first Bcb not wholly above the offset, and truncates the end to the one before |
| BcbList.FindBcb32 | WindowsResearchKernel-WRK/WRK-v1.2/base/ntos/cache/cachesub.c:3014-3040 | the 32-bit loop does so in the low half of the end only |
| BcbList.FindBcb | WindowsResearchKernel-WRK/WRK-v1.2/base/ntos/cache/cachesub.c:2963-3077 | found if and only if some Bcb covers the offset, and then that one is returned |
| BcbList.TruncatedIsFree | WindowsResearchKernel-WRK/WRK-v1.2/base/ntos/cache/cachesub.c:3057-3063 | a truncated range overlaps no Bcb, and is not cut shorter than that |
| BcbList.LoopsAgreeIff | WindowsResearchKernel-WRK/WRK-v1.2/base/ntos/cache/cachesub.c:3013-3040 | the 32-bit loop agrees with the 64-bit loop if and only if the requested end is below 4 GB or no Bcb lies above the offset |
| BcbList.NewLengthIs | WindowsResearchKernel-WRK/WRK-v1.2/base/ntos/cache/cachesub.c:200-243 | for every bound that the search can give, the 32-bit length of a new Bcb: zero exactly if nothing is asked for or the size from the page on is over 2^32 - 4096 and at most 2^32; one page if it is beyond; else whole pages to the bound or the end of the view |
| BcbList.NewBcbFitsIff | WindowsResearchKernel-WRK/WRK-v1.2/base/ntos/cache/cachesub.c:185-303 | for every request, a new Bcb covers the offset if and only if its length does not come out as zero, and keeps the list disjoint and descending if and only if, besides, the search did not miss the next Bcb in the view (32-bit loop, end at or beyond 4 GB) |
| BcbList.MissesNextExample | WindowsResearchKernel-WRK/WRK-v1.2/base/ntos/cache/cachesub.c:3034-3036 | such a list and request: the new Bcb overlaps a pinned one |
| BcbList.EmptyExample | WindowsResearchKernel-WRK/WRK-v1.2/base/ntos/cache/cachesub.c:204-243 | such a request: 4 GB less one byte at offset zero gets an empty Bcb |
| BcbList.InsertedAt | WindowsResearchKernel-WRK/WRK-v1.2/base/ntos/cache/cachesub.c:3124 | linking in before the Bcb returned by the search is in order if and only if the new end does not pass the next start |
| BcbList.DropKeepsList | WindowsResearchKernel-WRK/WRK-v1.2/base/ntos/cache/cachesub.c:597-645 | unmapping or deleting at pin count zero keeps the list, and every Bcb pinned or dirty |
| BcbList.UnpinRestores | WindowsResearchKernel-WRK/WRK-v1.2/base/ntos/cache/cachesub.c:499-507 | unpinning takes back what pinning did |
| BcbList.DirtiedEncloses | WindowsResearchKernel-WRK/WRK-v1.2/base/ntos/cache/cachesub.c:1384-1423 | a dirty Bcb's Lsns are the least and the greatest of its old ones and the one given, each attained |
| BcbList.DirtiedAllIs | WindowsResearchKernel-WRK/WRK-v1.2/base/ntos/cache/cachesub.c:1374-1431 | exactly the Bcbs of an overlap vector become dirty |
| BcbList.BcbStream.FindOrAllocate | WindowsResearchKernel-WRK/WRK-v1.2/base/ntos/cache/cachesub.c:185-310 | the six cases under the lock: which Bcb gets a pin, when the call is refused or raises; the Bcb covers the offset, and the list invariant survives, exactly unless a new one comes out empty or the next one was missed |
| BcbList.BcbStream.PinFileData | WindowsResearchKernel-WRK/WRK-v1.2/base/ntos/cache/cachesub.c:180-515 | for every request: succeeds exactly if the Bcb found may be had, or a new one be made, and its data is read, mapped already or not wanted, and says exactly when it raises and when it returns FALSE; what the caller gets has one more pin, is mapped exactly if it must be, and covers the offset and keeps the list in order exactly unless a new Bcb is empty or overlaps; a call that fails leaves the list as it was |
| BcbList.BcbStream.UnpinFileData | WindowsResearchKernel-WRK/WRK-v1.2/base/ntos/cache/cachesub.c:556-645 | pin counts, deletion, and the counters for UNPIN, UNREF and SET_CLEAN |
| BcbList.BcbStream.SetDirtyPinnedData | WindowsResearchKernel-WRK/WRK-v1.2/base/ntos/cache/cachesub.c:1365-1433 | the Bcbs are dirty, the counters have risen together, and the goal for valid data covers them |
| BcbList.BcbStream.DeleteBcbs | WindowsResearchKernel-WRK/WRK-v1.2/base/ntos/cache/fssup.c:930-960 | the list is empty and exactly the dirty Bcbs' pages were deducted |
| LogFlush.TakeOwned | WindowsResearchKernel-WRK/WRK-v1.2/base/ntos/cache/cachesub.c:1869-1913 | waiting only for a first member, a Bcb joins the run pinned, owned and dirty, or its pin is given back because its resource was taken or it is no longer dirty |
| LogFlush.TakeShared | WindowsResearchKernel-WRK/WRK-v1.2/base/ntos/cache/cachesub.c:1915-1922 | on other streams it joins pinned and clean |
| LogFlush.ScanBcbs | WindowsResearchKernel-WRK/WRK-v1.2/base/ntos/cache/cachesub.c:1824-1945 | the run is one stretch of the file of at most 64 KB unless a single Bcb, the Lsn collected bounds its members', and with nobody else at work it starts at the first candidate, takes no pinned Bcb behind it, and ends only where the next Bcb cannot follow or its resource is taken |
| LogFlush.FindRun | WindowsResearchKernel-WRK/WRK-v1.2/base/ntos/cache/cachesub.c:1795-1976 | with nobody else at work: the lazy writer's run starts at the least dirty offset at or beyond the old BeyondLastFlush, else at the least of all, and there is none only if nothing is dirty; an explicit flush's run starts at the first dirty Bcb that ends beyond its target's start |
| LogFlush.RunIsASegment | WindowsResearchKernel-WRK/WRK-v1.2/base/ntos/cache/cachesub.c:1989-2003 | a run is one contiguous piece of the list |
| LogFlush.AcquireBcbs | WindowsResearchKernel-WRK/WRK-v1.2/base/ntos/cache/cachesub.c:1795-2014 | where the run starts and ends, over the list and BeyondLastFlush as they were; log before data, with other threads at work whenever the lock is free: before TRUE is returned the log is on the disk up to every member's newest Lsn; FALSE with a run found only after a failed log flush, and then each member was still dirty, with its Lsns, when let go, and the list is as it was if nobody else was at work |
| LogFlush.WalkBack | WindowsResearchKernel-WRK/WRK-v1.2/base/ntos/cache/cachesub.c:2056-2087 | with others at work in between, the walk from the first Bcb down to the offset settles each member of the run once, in order, as its claim says; with nobody else, nothing else changes |
| LogFlush.StandsAt | WindowsResearchKernel-WRK/WRK-v1.2/base/ntos/cache/cachesub.c:2060-2087 | why following the links is right: the next member is the list neighbour of this one as long as both are pinned, whatever others do |
| LogFlush.FatesOfWritten | WindowsResearchKernel-WRK/WRK-v1.2/base/ntos/cache/cachesub.c:2069-2084 | after a write of metadata members are clean, and gone if nobody else pins them; to be retried they all stay dirty, but have lost their Lsns |
| LogFlush.PinsRestored | WindowsResearchKernel-WRK/WRK-v1.2/base/ntos/cache/cachesub.c:1991-2005 | after a failed log flush every pin count is what it was |
| DirtyCounters.EffectIsCharged | WindowsResearchKernel-WRK/WRK-v1.2/base/ntos/cache/cc.h:1009-1021 | every step changes the total by exactly what its stream's charge changes by |
| DirtyCounters.StepKeepsInv | WindowsResearchKernel-WRK/WRK-v1.2/base/ntos/cache/cachesub.c:1384-1412 | every step keeps the counts and the place on the dirty list |
| DirtyCounters.DirtyPagesConserved | WindowsResearchKernel-WRK/WRK-v1.2/base/ntos/cache/cc.h:1009-1021 | in every run CcTotalDirtyPages is the sum of mask bits, dirty Bcb pages and active pages, nothing underflows, and every stream with write-behind and dirty pages is on the dirty list |
| CounterSteps.MarkStep | WindowsResearchKernel-WRK/WRK-v1.2/base/ntos/cache/cachesub.c:1297-1317 | CcSetDirtyInMask changes counters and lists as the step Mark, or not at all |
| CounterSteps.TakeStep | WindowsResearchKernel-WRK/WRK-v1.2/base/ntos/cache/cachesub.c:1728-1748 | taking a run from the mask is the step Take |
| CounterSteps.DeleteMaskStep | WindowsResearchKernel-WRK/WRK-v1.2/base/ntos/cache/fssup.c:1513-1545 | CcDeleteMbcb is the step DeleteMask |
| CounterSteps.SetDirtyStep | WindowsResearchKernel-WRK/WRK-v1.2/base/ntos/cache/cachesub.c:1384-1412 | CcSetDirtyPinnedData is the step SetDirty |
| CounterSteps.UnpinStep | WindowsResearchKernel-WRK/WRK-v1.2/base/ntos/cache/cachesub.c:564-645 | CcUnpinFileDataEx is the step SetClean, and DropBcb for the last pin of a clean Bcb, or changes no count |
| CounterSteps.PinStep | WindowsResearchKernel-WRK/WRK-v1.2/base/ntos/cache/cachesub.c:185-310 | CcPinFileData is the step AddBcb where it allocates, or changes no count |
| CounterSteps.DeleteBcbsStep | WindowsResearchKernel-WRK/WRK-v1.2/base/ntos/cache/fssup.c:930-960 | CcDeleteBcbs is the step DeleteBcbs |
| DirtyCounters.ZeroMeansClean | WindowsResearchKernel-WRK/WRK-v1.2/base/ntos/cache/lazyrite.c:141 | a total of zero, on which the lazy writer sleeps, means that no page of any stream is dirty |
| DirtyCounters.FirstDirtyPageMoves | WindowsResearchKernel-WRK/WRK-v1.2/base/ntos/cache/cachesub.c:1400-1408 | a first dirty page leaves a stream off the dirty list exactly if it is a Bcb's and write-behind is disabled |
| LazyScan.CursorBefore | WindowsResearchKernel-WRK/WRK-v1.2/base/ntos/cache/lazyrite.c:290-291 | moving the cursor before a stream leaves the ring of the others |
| LazyScan.CursorAfter | WindowsResearchKernel-WRK/WRK-v1.2/base/ntos/cache/lazyrite.c:353-356 | moving it behind a stream does too |
| LazyScan.Follow | WindowsResearchKernel-WRK/WRK-v1.2/base/ntos/cache/lazyrite.c:352 | what follows an entry, wherever the cursor is |
| LazyScan.LazyWriter.CountPages | WindowsResearchKernel-WRK/WRK-v1.2/base/ntos/cache/lazyrite.c:270-299 | the cursor moves once, when the target is exhausted |
| LazyScan.LazyWriter.QueueStream | WindowsResearchKernel-WRK/WRK-v1.2/base/ntos/cache/lazyrite.c:259-335 | a stream with work is counted against the target and queued once, on its queue, exactly if there is memory |
| LazyScan.EighthOrAll | WindowsResearchKernel-WRK/WRK-v1.2/base/ntos/cache/lazyrite.c:262-267 | a stream is told to write all its dirty pages, or of a large metadata stream an eighth, and never none |
| LazyScan.FollowStep | WindowsResearchKernel-WRK/WRK-v1.2/base/ntos/cache/lazyrite.c:228-360 | each turn of the loop takes the plan one entry further |
| LazyScan.PlanCoversRing | WindowsResearchKernel-WRK/WRK-v1.2/base/ntos/cache/lazyrite.c:245-256 | the plan covers the whole ring: streams to be closed or torn down are queued wherever they stand, even with no pages left to write |
| LazyScan.PlanStaysAhead | WindowsResearchKernel-WRK/WRK-v1.2/base/ntos/cache/lazyrite.c:228-360 | the plan visits each entry once: no stream is in it twice |
| LazyScan.LazyWriter.Scan | WindowsResearchKernel-WRK/WRK-v1.2/base/ntos/cache/lazyrite.c:220-371 | visits every entry of the ring exactly once and terminates wherever the cursor moves. A stream is queued if and only if it is not queued yet and is awaited for teardown and dirty, or dirty and due with the pages of those queued before it below the target, or closed and clean, or an empty file; the scan is cut short exactly at a stream that deserves it and finds no memory. Each goes on its queue, the post-tick items last; the cursor ends at the stream that exhausts the target, in front or behind as its kind asks, or where it was |
| DeferredWrites.FirstTimeOvertakesNobody | WindowsResearchKernel-WRK/WRK-v1.2/base/ntos/cache/copysup.c:961-988 | in every run, when a first, non-exempt write is let in at the door, every write ever queued before has been released, Mm has memory, and the limits hold |
| DeferredWrites.MayPassIff | WindowsResearchKernel-WRK/WRK-v1.2/base/ntos/cache/copysup.c:961-988 | a write can be let in past waiting ones if and only if it is exempt from throttling or retrying |
| DeferredWrites.Throttle.AskToWrite | WindowsResearchKernel-WRK/WRK-v1.2/base/ntos/cache/copysup.c:927-988 | CcCanIWrite without the wait is a grant at the door, or changes nothing |
| DeferredWrites.Pass | WindowsResearchKernel-WRK/WRK-v1.2/base/ntos/cache/copysup.c:1113-1145 | why a pass releases an entry: all before it were asked about, denied and are privately throttled; and why it stops |
| DeferredWrites.GrantedIff | WindowsResearchKernel-WRK/WRK-v1.2/base/ntos/cache/copysup.c:961-988 | a queued write may go if and only if it is write-through, or Mm has memory and all that would then have been let loose keeps to the limits |
| DeferredWrites.LogGrows | WindowsResearchKernel-WRK/WRK-v1.2/base/ntos/cache/copysup.c:1110-1155 | each release was granted on top of all bytes let loose before it in the same call, and unless write-through keeps to the limits with them |
| DeferredWrites.Throttle.PostDeferredWrites | WindowsResearchKernel-WRK/WRK-v1.2/base/ntos/cache/copysup.c:1098-1156 | everything queued is let go once or still queued in order, the log explains each release, the last pass why no more, the call ends however much arrives meanwhile, and all that happens are steps of the runs below |
| DeferredWrites.Throttle.DeferWrite | WindowsResearchKernel-WRK/WRK-v1.2/base/ntos/cache/copysup.c:1033-1095 | the write is let go or queued exactly once, at the head when retrying |
| DeferredWrites.ReleasedOnce | WindowsResearchKernel-WRK/WRK-v1.2/base/ntos/cache/copysup.c:1106-1155 | with any number of threads, what was deferred is what waits and what was released, each once, and nothing that was let in is among it |
| DeferredWrites.OrdinaryIsNotOvertaken | WindowsResearchKernel-WRK/WRK-v1.2/base/ntos/cache/copysup.c:1128-1141 | an ordinary write that waited when another was queued at the tail is released before it |
| SlabAllocator.SlotInPage | WindowsResearchKernel-WRK/WRK-v1.2/base/ntos/config/cmalloc.c:34-38 | masking the address of any slot recovers its page |
| SlabAllocator.NextSlotDoesNotFit | WindowsResearchKernel-WRK/WRK-v1.2/base/ntos/config/cmalloc.c:34-38 | the slots of a page lie in it, and no further slot would |
| SlabAllocator.MaskingIsPageOf | WindowsResearchKernel-WRK/WRK-v1.2/base/ntos/config/cmalloc.c:37 | for every 32-bit address, the bitwise AND with ~(PAGE_SIZE - 1) is the rounding down that SlotInPage speaks of |
| SlabAllocator.FirstSlotsAre | WindowsResearchKernel-WRK/WRK-v1.2/base/ntos/config/cmalloc.c:128-136 | the slots of a page are distinct and as many as the count says |
| SlabAllocator.FullIff | WindowsResearchKernel-WRK/WRK-v1.2/base/ntos/config/cmalloc.c:195 | a page's count is full exactly when none of its slots is live, and then they are all on the list |
| SlabAllocator.PageReturned | WindowsResearchKernel-WRK/WRK-v1.2/base/ntos/config/cmalloc.c:199-204 | returning a page keeps free and live slots, and the other counts, consistent |
| SlabAllocator.Take | WindowsResearchKernel-WRK/WRK-v1.2/base/ntos/config/cmalloc.c:103-112 | taking the head of the list makes a free slot live and lowers its page's count |
| SlabAllocator.GiveBack | WindowsResearchKernel-WRK/WRK-v1.2/base/ntos/config/cmalloc.c:190-193 | putting a slot back raises its page's count, which was not full |
| SlabAllocator.Slab.AddPage | WindowsResearchKernel-WRK/WRK-v1.2/base/ntos/config/cmalloc.c:117-136 | a new page's slots, and only they, are on the list |
| SlabAllocator.Slab.AllocateSlot | WindowsResearchKernel-WRK/WRK-v1.2/base/ntos/config/cmalloc.c:246-299 | a slot not live before, the head of the list if there is one; NULL exactly when list and pool are empty |
| SlabAllocator.Slab.FreeSlot | WindowsResearchKernel-WRK/WRK-v1.2/base/ntos/config/cmalloc.c:306-337 | the slot is free; its page goes exactly when no other slot of it is live, and then none stays linked |
| SlabAllocator.KeyControlBlocks.Allocate | WindowsResearchKernel-WRK/WRK-v1.2/base/ntos/config/cmalloc.c:79-150 | a block not in use before, private exactly when it comes from a page |
| SlabAllocator.KeyControlBlocks.Free | WindowsResearchKernel-WRK/WRK-v1.2/base/ntos/config/cmalloc.c:156-208 | the block, and only it, is no longer in use, whichever way it was allocated; a page goes exactly when no other block of it is in use |
| MapAndCopy.CopiedMore | WindowsResearchKernel-WRK/WRK-v1.2/base/ntos/cache/cachesub.c:3421-3458 | copying piece by piece is copying the whole |
| MapAndCopy.CachedFile.SetActive | WindowsResearchKernel-WRK/WRK-v1.2/base/ntos/cache/vacbsup.c:1798-1895 | a small write's last page becomes the dirty active page, or is marked if there is one already |
| MapAndCopy.CachedFile.CopyPages | WindowsResearchKernel-WRK/WRK-v1.2/base/ntos/cache/cachesub.c:3406-3509 | the page loop copies exactly the bytes of the view; if it saves the last page, all pages of the view are tracked |
| MapAndCopy.CachedFile.WriteView | WindowsResearchKernel-WRK/WRK-v1.2/base/ntos/cache/cachesub.c:3394-3528 | one view of the write: exactly its pages are flushed or marked, and why it did not go through if it did not |
| MapAndCopy.CachedFile.Write | WindowsResearchKernel-WRK/WRK-v1.2/base/ntos/cache/cachesub.c:3394-3580 | what Mm answers decides the outcome: TRUE if and only if the call may wait or is not write-through, each page lets the copy pass, and each flush succeeds; FALSE only at an absent page, or for write-through. On TRUE exactly the caller's bytes are at exactly the range, every page touched is marked, the dirty active page, flushed by this call, or one whose mark failed, and the pages flushed are exactly those of a write-through write or of views with more than 64 KB left behind them; a small last page becomes the active page if there is none; after an exception only a prefix is copied, and every page that was copied to is marked, saved or flushed, or its mark failed, write-through apart |

## Left out

- Views, Vacbs and their levels, the array of Bcb list heads and `CcGetBcbListHead`: a view gives its bytes, and there is one list of Bcbs.
- Range structures and Bcbs are values in a sequence held by a class, not objects with links: list surgery on them is on sequences. The links themselves are modelled in `LazyScan`, where the cursor moves.
- The zone of Vacb level blocks, beyond whether it has a bitmap and how many were taken and given back.
- Spin locks and resources: each section under a lock is one step, and a resource is had, waited for, or not. The bakery lock has no such sections.
- `CcGetFlushedValidData`: it looks at the highest dirty Bcb, so its answer bounds nothing on streams with Bcbs.
- Streams that have dirty Bcbs and a dirty mask at once (the look-aside check of `CcAcquireByteRangeForWrite`).
- Read-ahead, MDLs, `CcZeroData`, `CcSetValidData`, exception filters, performance counters.
- What Mm does with a modified page that the cache manager lost track of, and torn or reordered disk writes of one page by two flushers: Mm serialises those.
- MaskStream.SharedCacheMap.SetDirtyInMask: the caller must stay within one bitmap range and the section, as the routine itself asserts.
- FlushCache.FlushCache: other writers run beside the lazy writer only, before and after each write, and NoLoss has them during it; beside an explicit flush the loop need not end. A whole-file flush terminates because Mm does not report collisions to callers that do not ask for them, which the routine asserts.
- FlushCache.FlushCache: the flush by Mm of user-mapped files before the loop, and the zeroing of the active page, are not part of the model.
- BcbList.BcbStream.PinFileData: the list is in order when the call begins; what later calls do with a list that an overlapping or empty Bcb has spoilt is not described.
- LogFlush.WalkBack: the up to three locked sections that settle one member are one step; others act between members. Pins by others are of requests that fit.
- LogFlush.AcquireBcbs: other threads take any number of steps, but finitely many, so that the scan that starts over terminates.
- CounterSteps: the steps of the active page, of the lazy writer's bias, and of opening and closing a stream stand for routines whose code is not modelled.
- DeferredWrites.Throttle.AskToWrite: a grant counts from the moment at which the queue is looked at; the tests that follow in `CcCanIWrite` take no lock on it.
- WorkQueue: threads outside the pool that run a scan after going idle appear only through what they post.
- LazyScan.LazyWriter.Scan: the state of the streams is an input (pass counts, temporary files and `CcCanIWrite` summed up in one flag), and nobody changes it or the ring during the scan; that the lock is dropped now and then is not modelled.
- DeferredWrites.Throttle.PostDeferredWrites: a post routine that calls back into the throttle is an arrival.
- MapAndCopy.CachedFile.Write: the zeroing of a page's tail (NeedToZero) is not modelled. On a FALSE return pages already copied in the current view are not marked: the caller repeats the write.
- SlabAllocator: one allocator with a slot size stands for both the control blocks and the delay items; the contents of a block are not modelled.
- The other programs of the resource kit, ProjectOZ, and the verifier headers.
