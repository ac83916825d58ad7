/**
 The mask Bcb: the dirty pages of a user data stream as a sorted list of recycled bitmap ranges with
 first/last hints and counters. Sizes are those of the 32-bit build. A ULONG of a bitmap is its 32 bits, a
 NULL bitmap is the empty sequence, and the list of ranges is a sequence that the operations reassign.
 */
module MaskBcb {
  const INITIAL_PAGES := 512                       // MBCB_BITMAP_INITIAL_SIZE * 8
  const RANGE_PAGES := 4096                        // MBCB_BITMAP_BLOCK_SIZE * 8
  const PAGE_LIMIT := 0x1_0000_0000                // page numbers are cast to ULONG
  const MAXULONG := 0xFFFF_FFFF
  const MAXLONGLONG := 0x7FFF_FFFF_FFFF_FFFF

  type Bitmap = seq<bool>

  const ZERO_BITMAP: Bitmap := seq(RANGE_PAGES, _ => false)

  datatype BitmapRange = BitmapRange(
    basePage: int, firstDirtyPage: int, lastDirtyPage: int, dirtyPages: int, bitmap: Bitmap)

  /** A range that promotion adds and that no page has claimed yet. */
  const UNSET := BitmapRange(MAXLONGLONG, MAXULONG, 0, 0, [])

  // ----- The set of pages that ranges describe -----------------------------------------------------

  predicate Holds(r: BitmapRange, p: int) {
    r.basePage <= p < r.basePage + |r.bitmap| && r.bitmap[p - r.basePage]
  }

  ghost function Pages(r: BitmapRange): set<int> {
    set p | r.basePage <= p < r.basePage + |r.bitmap| && Holds(r, p)
  }

  ghost function DirtyOf(rs: seq<BitmapRange>): set<int> {
    if rs == [] then {} else Pages(rs[0]) + DirtyOf(rs[1..])
  }

  function Sum(rs: seq<BitmapRange>): int {
    if rs == [] then 0 else rs[0].dirtyPages + Sum(rs[1..])
  }

  function Count(bitmap: Bitmap): nat {
    if bitmap != [] then 1 else 0
  }

  /** How many ranges have a bitmap. */
  function Bitmaps(rs: seq<BitmapRange>): nat {
    if rs == [] then 0 else Count(rs[0].bitmap) + Bitmaps(rs[1..])
  }

  /** The pages from `first` up to but excluding `beyond`. */
  ghost function PageRun(first: int, beyond: int): (run: set<int>)
    ensures forall p :: p in run <==> first <= p < beyond
    ensures |run| == if first <= beyond then beyond - first else 0
    decreases beyond - first
  {
    if beyond <= first then {} else PageRun(first, beyond - 1) + {beyond - 1}
  }

  /** Where the window number `q` of the file begins. */
  function Window(q: int): int {
    4096 * q
  }

  ghost predicate IsWindow(base: int) {
    exists q :: base == Window(q)
  }

  function BaseOf(page: int): (base: int)
    ensures IsWindow(base) && base <= page < base + RANGE_PAGES
    ensures page >= 0 ==> base >= 0
  {
    assert page - page % 4096 == Window(page / 4096);
    page - page % 4096
  }

  ghost predicate RangeOk(r: BitmapRange) {
    && (r.basePage == MAXLONGLONG || 0 <= r.basePage < PAGE_LIMIT)
    && (r.basePage != MAXLONGLONG ==> r.bitmap != [])
    && (|r.bitmap| == 0 || |r.bitmap| == INITIAL_PAGES || |r.bitmap| == RANGE_PAGES)
    && r.dirtyPages == |Pages(r)|
    && (r.dirtyPages == 0 ==> r.firstDirtyPage == MAXULONG && r.lastDirtyPage == 0)
    && (r.dirtyPages > 0 ==>
          r.basePage < PAGE_LIMIT && 0 <= r.firstDirtyPage <= r.lastDirtyPage < |r.bitmap|)
    && (forall k | 0 <= k < |r.bitmap| && r.bitmap[k] :: r.firstDirtyPage <= k <= r.lastDirtyPage)
  }

  /** Ascending, each window behind the one before; ranges not yet set up all sit at the end, based at
      MAXLONGLONG. */
  ghost predicate Sorted(rs: seq<BitmapRange>) {
    forall i, j | 0 <= i < j < |rs| ::
      rs[i].basePage + RANGE_PAGES <= rs[j].basePage || rs[i].basePage == rs[j].basePage == MAXLONGLONG
  }

  ghost predicate AlignedAt(rs: seq<BitmapRange>, i: int)
    requires 0 <= i < |rs|
  {
    rs[i].basePage == MAXLONGLONG || IsWindow(rs[i].basePage)
  }

  ghost predicate Aligned(rs: seq<BitmapRange>) {
    forall i | 0 <= i < |rs| :: AlignedAt(rs, i)
  }

  ghost predicate EachOk(rs: seq<BitmapRange>) {
    forall i | 0 <= i < |rs| :: RangeOk(rs[i])
  }

  ghost predicate RangesOk(rs: seq<BitmapRange>) {
    Sorted(rs) && EachOk(rs)
  }

  lemma {:induction false} DirtyOfIn(rs: seq<BitmapRange>, p: int)
    ensures p in DirtyOf(rs) <==> exists i | 0 <= i < |rs| :: p in Pages(rs[i])
  {
    if rs != [] {
      DirtyOfIn(rs[1..], p);
      if i :| 0 <= i < |rs| && p in Pages(rs[i]) {
        assert i > 0 ==> rs[1..][i - 1] == rs[i];
      }
      if p in DirtyOf(rs[1..]) {
        var i :| 0 <= i < |rs[1..]| && p in Pages(rs[1..][i]);
        assert rs[i + 1] == rs[1..][i];
      }
    }
  }

  /** The windows of different ranges do not meet, so the ranges hold pairwise different pages. */
  lemma OneRangePerPage(rs: seq<BitmapRange>, i: int, j: int, p: int)
    requires RangesOk(rs) && 0 <= i < |rs| && 0 <= j < |rs|
    requires p in Pages(rs[i]) && rs[j].basePage <= p < rs[j].basePage + RANGE_PAGES
    ensures i == j
  {
    assert rs[i].dirtyPages > 0 && rs[i].basePage < PAGE_LIMIT;
  }

  lemma PageInOther(rs: seq<BitmapRange>, i: nat, p: int)
    requires RangesOk(rs) && i < |rs| && p in Pages(rs[i])
    ensures forall j | 0 <= j < |rs| && j != i :: p !in Pages(rs[j])
  {
    forall j | 0 <= j < |rs| && j != i ensures p !in Pages(rs[j]) {
      if p in Pages(rs[j]) { OneRangePerPage(rs, i, j, p); }
    }
  }

  lemma {:induction false} SumUpdate(rs: seq<BitmapRange>, i: nat, r: BitmapRange)
    requires i < |rs|
    ensures Sum(rs[i := r]) == Sum(rs) - rs[i].dirtyPages + r.dirtyPages
  {
    if i == 0 {
      assert rs[i := r][1..] == rs[1..];
    } else {
      SumUpdate(rs[1..], i - 1, r);
      assert rs[i := r][1..] == rs[1..][i - 1 := r];
    }
  }

  lemma {:induction false} BitmapsUpdate(rs: seq<BitmapRange>, i: nat, r: BitmapRange)
    requires i < |rs| && Count(r.bitmap) == Count(rs[i].bitmap)
    ensures Bitmaps(rs[i := r]) == Bitmaps(rs)
  {
    if i == 0 {
      assert rs[i := r][1..] == rs[1..];
    } else {
      BitmapsUpdate(rs[1..], i - 1, r);
      assert rs[i := r][1..] == rs[1..][i - 1 := r];
    }
  }

  lemma {:induction false} BitmapsInsert(rs: seq<BitmapRange>, at: nat, r: BitmapRange)
    requires at <= |rs|
    ensures Bitmaps(rs[..at] + [r] + rs[at..]) == Bitmaps(rs) + Count(r.bitmap)
  {
    var rs' := rs[..at] + [r] + rs[at..];
    if at == 0 {
      assert rs'[1..] == rs;
    } else {
      BitmapsInsert(rs[1..], at - 1, r);
      assert rs'[1..] == rs[1..][..at - 1] + [r] + rs[1..][at - 1..];
    }
  }

  /** Taking a range out and putting it in elsewhere, with the caller's bitmap if it had none. */
  lemma BitmapsRelinked(rs: seq<BitmapRange>, free: int, rest: seq<BitmapRange>, at: int, was: BitmapRange, r: BitmapRange)
    requires -1 <= free < |rs| && rest == Without(rs, free) && 0 <= at <= |rest|
    requires if free >= 0 then was == rs[free] else was.bitmap == []
    ensures Bitmaps(rest[..at] + [r] + rest[at..]) == Bitmaps(rs) - Count(was.bitmap) + Count(r.bitmap)
  {
    hide Bitmaps;
    BitmapsInsert(rest, at, r);
    if free >= 0 {
      BitmapsInsert(rest, free, rs[free]);
      PutBack(rs, free);
    }
  }

  lemma PutBack(rs: seq<BitmapRange>, free: int)
    requires 0 <= free < |rs|
    ensures var rest := rs[..free] + rs[free + 1..]; rest[..free] + [rs[free]] + rest[free..] == rs
  {
    var rest := rs[..free] + rs[free + 1..];
    assert rest[..free] == rs[..free] && rest[free..] == rs[free + 1..];
  }

  lemma {:induction false} SumConcat(a: seq<BitmapRange>, b: seq<BitmapRange>)
    ensures Sum(a + b) == Sum(a) + Sum(b)
    ensures DirtyOf(a + b) == DirtyOf(a) + DirtyOf(b)
  {
    if a == [] {
      assert a + b == b;
    } else {
      SumConcat(a[1..], b);
      assert (a + b)[1..] == a[1..] + b;
    }
  }

  /** A clean range can be taken out of the list, or a clean one put in, without touching the dirty set. */
  lemma Splice(a: seq<BitmapRange>, r: BitmapRange, b: seq<BitmapRange>)
    requires r.dirtyPages == 0 && Pages(r) == {}
    ensures Sum(a + [r] + b) == Sum(a + b) && DirtyOf(a + [r] + b) == DirtyOf(a + b)
  {
    SumConcat(a + [r], b);
    SumConcat(a, [r]);
    SumConcat(a, b);
  }

  lemma {:induction false} SumIsNonNegative(rs: seq<BitmapRange>)
    requires forall i | 0 <= i < |rs| :: RangeOk(rs[i])
    ensures Sum(rs) >= 0
    ensures Sum(rs) == 0 <==> forall i | 0 <= i < |rs| :: rs[i].dirtyPages == 0
    ensures forall i | 0 <= i < |rs| :: rs[i].dirtyPages <= Sum(rs)
  {
    if rs != [] {
      SumIsNonNegative(rs[1..]);
      assert forall i | 1 <= i < |rs| :: rs[i] == rs[1..][i - 1];
    }
  }

  /** The counter of the Mbcb is the size of the set. */
  lemma {:induction false} SumIsCount(rs: seq<BitmapRange>)
    requires RangesOk(rs)
    ensures Sum(rs) == |DirtyOf(rs)|
  {
    if rs != [] {
      SumIsCount(rs[1..]);
      assert forall i | 0 <= i < |rs[1..]| :: rs[1..][i] == rs[i + 1];
      forall p | p in Pages(rs[0]) ensures p !in DirtyOf(rs[1..]) {
        DirtyOfIn(rs[1..], p);
        PageInOther(rs, 0, p);
      }
    }
  }

  lemma UpdatedDirty(rs: seq<BitmapRange>, i: nat, r: BitmapRange, p: int)
    requires RangesOk(rs) && i < |rs|
    ensures p in DirtyOf(rs[i := r]) <==> p in Pages(r) || (p in DirtyOf(rs) && p !in Pages(rs[i]))
  {
    var rs' := rs[i := r];
    DirtyOfIn(rs, p);
    DirtyOfIn(rs', p);
    assert rs'[i] == r && forall j | 0 <= j < |rs| && j != i :: rs'[j] == rs[j];
    if p in Pages(rs[i]) { PageInOther(rs, i, p); }
  }

  lemma UpdateKeepsAligned(rs: seq<BitmapRange>, i: nat, r: BitmapRange)
    requires Aligned(rs) && i < |rs| && r.basePage == rs[i].basePage
    ensures Aligned(rs[i := r])
  {
    var rs' := rs[i := r];
    forall k | 0 <= k < |rs'| ensures AlignedAt(rs', k) {
      assert AlignedAt(rs, k);
    }
  }

  /** Replacing one range by another on the same base changes the dirty set by what it changes there. */
  lemma UpdateRange(rs: seq<BitmapRange>, i: nat, r: BitmapRange)
    requires RangesOk(rs) && i < |rs| && RangeOk(r) && r.basePage == rs[i].basePage
    ensures RangesOk(rs[i := r]) && (Aligned(rs) ==> Aligned(rs[i := r]))
    ensures Sum(rs[i := r]) == Sum(rs) - rs[i].dirtyPages + r.dirtyPages
    ensures forall p :: p in DirtyOf(rs[i := r]) <==>
              p in Pages(r) || (p in DirtyOf(rs) && p !in Pages(rs[i]))
  {
    SumUpdate(rs, i, r);
    if Aligned(rs) { UpdateKeepsAligned(rs, i, r); }
    forall p ensures p in DirtyOf(rs[i := r]) <==> p in Pages(r) || (p in DirtyOf(rs) && p !in Pages(rs[i])) {
      UpdatedDirty(rs, i, r, p);
    }
  }

  lemma SomeBitSet(r: BitmapRange) returns (k: int)
    requires RangeOk(r) && r.dirtyPages > 0
    ensures 0 <= k < |r.bitmap| && r.bitmap[k] && r.firstDirtyPage <= k <= r.lastDirtyPage
    ensures r.basePage + k in Pages(r)
  {
    var p :| p in Pages(r);
    k := p - r.basePage;
  }

  lemma CleanRangeIsZero(r: BitmapRange)
    requires RangeOk(r) && r.dirtyPages == 0
    ensures forall k | 0 <= k < |r.bitmap| :: !r.bitmap[k]
    ensures Pages(r) == {}
  {
  }

  lemma SameBitmapSamePages(a: BitmapRange, b: BitmapRange)
    requires a.basePage == b.basePage && a.bitmap == b.bitmap
    ensures Pages(a) == Pages(b)
  {
    assert forall p :: Holds(a, p) <==> Holds(b, p);
  }

  lemma SetBit(r: BitmapRange, k: int)
    requires 0 <= k < |r.bitmap| && !r.bitmap[k]
    ensures Pages(r.(bitmap := r.bitmap[k := true])) == Pages(r) + {r.basePage + k}
    ensures r.basePage + k !in Pages(r)
  {
  }

  lemma OneRange(r: BitmapRange)
    ensures Sum([r]) == r.dirtyPages && DirtyOf([r]) == Pages(r)
  {
    assert [r][1..] == [];
  }

  lemma OneBitmap(r: BitmapRange)
    requires r.bitmap != []
    ensures Bitmaps([r, UNSET, UNSET]) == 1
  {
    assert [r, UNSET, UNSET][1..] == [UNSET, UNSET] && [UNSET, UNSET][1..] == [UNSET];
    assert Bitmaps([UNSET]) == 0 && Bitmaps([UNSET, UNSET]) == 0;
  }

  lemma PromotedRanges(was: BitmapRange, r: BitmapRange)
    requires RangeOk(was) && was.basePage == 0 && Pages(r) == Pages(was) && |r.bitmap| == RANGE_PAGES
    requires r == was.(bitmap := r.bitmap)
    requires forall k | 0 <= k < |r.bitmap| && r.bitmap[k] :: r.firstDirtyPage <= k <= r.lastDirtyPage
    ensures RangesOk([r, UNSET, UNSET]) && Aligned([r, UNSET, UNSET])
    ensures Sum([r, UNSET, UNSET]) == Sum([was]) && DirtyOf([r, UNSET, UNSET]) == DirtyOf([was])
  {
    assert Pages(UNSET) == {} && 0 == Window(0);
    OneRange(r); OneRange(was); OneRange(UNSET);
    SumConcat([r], [UNSET]);
    SumConcat([r] + [UNSET], [UNSET]);
    assert [r] + [UNSET] + [UNSET] == [r, UNSET, UNSET];
  }

  // ----- The memory of the embedded ranges ---------------------------------------------------------

  /** The number that a stretch of memory, least significant bit first, spells. */
  function Value(bits: Bitmap): nat {
    if bits == [] then 0 else (if bits[0] then 1 else 0) + 2 * Value(bits[1..])
  }

  lemma {:induction false} ZeroValue(bits: Bitmap)
    requires forall k | 0 <= k < |bits| :: !bits[k]
    ensures Value(bits) == 0
  {
    if bits != [] { ZeroValue(bits[1..]); }
  }

  /** An embedded range as promotion finds it: list links, base and first hint are assigned, and the other
      fields keep what the memory holds. A pointer that is not NULL would be wild. */
  function EmbeddedRange(memory: Bitmap): BitmapRange
    requires |memory| == 256 && Value(memory[224..256]) == 0
  {
    BitmapRange(MAXLONGLONG, MAXULONG, Value(memory[160..192]), Value(memory[192..224]), [])
  }

  /** Promotion rests on the memory being all zero: then the two new ranges are clean and have no bitmap. */
  lemma ZeroMemoryIsACleanRange(memory: Bitmap)
    requires |memory| == 256 && forall k | 0 <= k < |memory| :: !memory[k]
    ensures Value(memory[224..256]) == 0
    ensures EmbeddedRange(memory) == UNSET
  {
    ZeroValue(memory[160..192]);
    ZeroValue(memory[192..224]);
    ZeroValue(memory[224..256]);
  }

  // ----- Finding the range to set bits in ----------------------------------------------------------

  lemma InsertKeepsOrder(rest: seq<BitmapRange>, at: nat, r: BitmapRange, rs: seq<BitmapRange>)
    requires Sorted(rest) && at <= |rest| && r.basePage < PAGE_LIMIT
    requires rs == rest[..at] + [r] + rest[at..]
    requires forall k | 0 <= k < at :: rest[k].basePage + RANGE_PAGES <= r.basePage
    requires forall k | at <= k < |rest| :: r.basePage + RANGE_PAGES <= rest[k].basePage
    ensures Sorted(rs)
  {
    assert forall k | 0 <= k < |rs| :: rs[k] == if k < at then rest[k] else if k == at then r else rest[k - 1];
  }

  lemma InsertRange(rest: seq<BitmapRange>, at: nat, r: BitmapRange)
    requires RangesOk(rest) && at <= |rest| && RangeOk(r) && r.dirtyPages == 0 && r.basePage < PAGE_LIMIT
    requires forall k | 0 <= k < at :: rest[k].basePage + RANGE_PAGES <= r.basePage
    requires forall k | at <= k < |rest| :: r.basePage + RANGE_PAGES <= rest[k].basePage
    ensures RangesOk(rest[..at] + [r] + rest[at..])
    ensures Sum(rest[..at] + [r] + rest[at..]) == Sum(rest)
    ensures DirtyOf(rest[..at] + [r] + rest[at..]) == DirtyOf(rest)
  {
    var rs := rest[..at] + [r] + rest[at..];
    InsertKeepsOrder(rest, at, r, rs);
    forall k | 0 <= k < |rs| ensures RangeOk(rs[k]) {
      assert rs[k] == if k < at then rest[k] else if k == at then r else rest[k - 1];
    }
    CleanRangeIsZero(r);
    Splice(rest[..at], r, rest[at..]);
    assert rest == rest[..at] + rest[at..];
  }

  lemma WindowApart(a: int, b: int)
    requires IsWindow(a) && IsWindow(b) && a < b
    ensures a + RANGE_PAGES <= b
  {
    var p :| a == Window(p);
    var q :| b == Window(q);
  }

  /** Bases are multiples of the window size, so being different is being a window apart. */
  lemma WindowsApart(rs: seq<BitmapRange>, base: int)
    requires Aligned(rs) && 0 <= base < PAGE_LIMIT && IsWindow(base)
    ensures forall k | 0 <= k < |rs| && rs[k].basePage < base :: rs[k].basePage + RANGE_PAGES <= base
    ensures forall k | 0 <= k < |rs| && base < rs[k].basePage :: base + RANGE_PAGES <= rs[k].basePage
  {
    forall k | 0 <= k < |rs|
      ensures rs[k].basePage < base ==> rs[k].basePage + RANGE_PAGES <= base
      ensures base < rs[k].basePage ==> base + RANGE_PAGES <= rs[k].basePage
    {
      assert AlignedAt(rs, k);
      if rs[k].basePage < base {
        WindowApart(rs[k].basePage, base);
      } else if base < rs[k].basePage < MAXLONGLONG {
        WindowApart(base, rs[k].basePage);
      }
    }
  }

  lemma RemoveKeepsOrder(rs: seq<BitmapRange>, at: nat, rest: seq<BitmapRange>)
    requires Sorted(rs) && at < |rs| && rest == rs[..at] + rs[at + 1..]
    ensures Sorted(rest)
  {
    assert forall k | 0 <= k < |rest| :: rest[k] == if k < at then rs[k] else rs[k + 1];
  }

  lemma RemoveKeepsOk(rs: seq<BitmapRange>, at: nat, rest: seq<BitmapRange>)
    requires EachOk(rs) && at < |rs| && rest == rs[..at] + rs[at + 1..]
    ensures EachOk(rest)
  {
    forall k | 0 <= k < |rest| ensures RangeOk(rest[k]) {
      assert rest[k] == if k < at then rs[k] else rs[k + 1];
    }
  }

  lemma RemoveRange(rs: seq<BitmapRange>, at: nat, rest: seq<BitmapRange>)
    requires RangesOk(rs) && at < |rs| && rs[at].dirtyPages == 0
    requires rest == rs[..at] + rs[at + 1..]
    ensures RangesOk(rest) && Sum(rest) == Sum(rs) && DirtyOf(rest) == DirtyOf(rs)
  {
    RemoveKeepsOrder(rs, at, rest);
    RemoveKeepsOk(rs, at, rest);
    CleanRangeIsZero(rs[at]);
    Splice(rs[..at], rs[at], rs[at + 1..]);
    assert rs == rs[..at] + [rs[at]] + rs[at + 1..];
  }

  /** The list that is left when the recycled range, if any, has been taken out. */
  function Without(rs: seq<BitmapRange>, free: int): (rest: seq<BitmapRange>)
    requires -1 <= free < |rs|
    ensures |rest| == if free >= 0 then |rs| - 1 else |rs|
    ensures forall k | 0 <= k < |rest| :: rest[k] == rs[if 0 <= free <= k then k + 1 else k]
  {
    if free >= 0 then rs[..free] + rs[free + 1..] else rs
  }

  lemma WithoutKeepsAligned(rs: seq<BitmapRange>, free: int)
    requires Aligned(rs) && -1 <= free < |rs|
    ensures Aligned(Without(rs, free))
  {
    var rest := Without(rs, free);
    forall k | 0 <= k < |rest| ensures AlignedAt(rest, k) {
      assert AlignedAt(rs, if 0 <= free <= k then k + 1 else k);
    }
  }

  /** The insertion point in the list that is left when the recycled range has been taken out. */
  lemma InsertPlace(rs: seq<BitmapRange>, free: int, ip: int, base: int, at: int)
    requires -1 <= free < |rs| && -1 <= ip < |rs| && (free >= 0 ==> free != ip)
    requires Aligned(rs) && 0 <= base < PAGE_LIMIT && IsWindow(base)
    requires forall k | 0 <= k <= ip && k != free :: rs[k].basePage < base
    requires forall k | ip < k < |rs| && k != free :: base < rs[k].basePage
    requires at == if 0 <= free < ip then ip else ip + 1
    ensures 0 <= at <= |Without(rs, free)|
    ensures forall k | 0 <= k < at :: Without(rs, free)[k].basePage + RANGE_PAGES <= base
    ensures forall k | at <= k < |Without(rs, free)| :: base + RANGE_PAGES <= Without(rs, free)[k].basePage
  {
    WindowsApart(rs, base);
  }

  /** The recycled or new range as it enters the list; a range without a bitmap consumes the caller's. */
  function FreshRange(was: BitmapRange, base: int, freeBitmap: Bitmap): BitmapRange {
    BitmapRange(base, MAXULONG, 0, was.dirtyPages, if was.bitmap == [] then freeBitmap else was.bitmap)
  }

  ghost predicate LargeBitmaps(rs: seq<BitmapRange>) {
    forall i | 0 <= i < |rs| :: |rs[i].bitmap| == 0 || |rs[i].bitmap| == RANGE_PAGES
  }

  lemma FreshRangeOk(r: BitmapRange, base: int)
    requires r == UNSET || (RangeOk(r) && r.dirtyPages == 0 && (r.bitmap == [] || |r.bitmap| == RANGE_PAGES))
    requires 0 <= base < PAGE_LIMIT && IsWindow(base)
    ensures RangeOk(FreshRange(r, base, ZERO_BITMAP)) && |FreshRange(r, base, ZERO_BITMAP).bitmap| == RANGE_PAGES
  {
    assert Pages(FreshRange(r, base, ZERO_BITMAP)) == {};
  }

  lemma RelinkedSizes(rs: seq<BitmapRange>, free: int, rest: seq<BitmapRange>, at: int, r: BitmapRange)
    requires LargeBitmaps(rs) && -1 <= free < |rs| && |r.bitmap| == RANGE_PAGES
    requires rest == Without(rs, free)
    requires 0 <= at <= |rest|
    ensures LargeBitmaps(rest[..at] + [r] + rest[at..])
  {
    var rs' := rest[..at] + [r] + rest[at..];
    assert forall k | 0 <= k < |rest| :: rest[k] == if 0 <= free <= k then rs[k + 1] else rs[k];
    assert forall k | 0 <= k < |rs'| :: rs'[k] == if k < at then rest[k] else if k == at then r else rest[k - 1];
  }

  lemma InsertKeepsAligned(rest: seq<BitmapRange>, at: nat, r: BitmapRange)
    requires Aligned(rest) && at <= |rest| && IsWindow(r.basePage)
    ensures Aligned(rest[..at] + [r] + rest[at..])
  {
    var rs := rest[..at] + [r] + rest[at..];
    forall k | 0 <= k < |rs| ensures AlignedAt(rs, k) {
      if k < at { assert AlignedAt(rest, k); } else if k > at { assert AlignedAt(rest, k - 1); }
    }
  }

  lemma Relinked(rs: seq<BitmapRange>, free: int, ip: int, base: int, rest: seq<BitmapRange>, at: int, r: BitmapRange)
    requires RangesOk(rs) && Aligned(rs) && LargeBitmaps(rs) && -1 <= free < |rs| && -1 <= ip < |rs|
    requires free >= 0 ==> free != ip && rs[free].dirtyPages == 0
    requires 0 <= base < PAGE_LIMIT && IsWindow(base)
    requires forall k | 0 <= k <= ip :: rs[k].basePage < base
    requires forall k | ip < k < |rs| && k != free :: base < rs[k].basePage
    requires rest == Without(rs, free)
    requires at == if 0 <= free < ip then ip else ip + 1
    requires r == FreshRange(if free >= 0 then rs[free] else UNSET, base, ZERO_BITMAP)
    ensures 0 <= at <= |rest|
    ensures var rs' := rest[..at] + [r] + rest[at..];
            RangesOk(rs') && Aligned(rs') && LargeBitmaps(rs') && Sum(rs') == Sum(rs) && DirtyOf(rs') == DirtyOf(rs)
  {
    if free >= 0 { RemoveRange(rs, free, rest); }
    FreshRangeOk(if free >= 0 then rs[free] else UNSET, base);
    InsertPlace(rs, free, ip, base, at);
    WithoutKeepsAligned(rs, free);
    InsertRange(rest, at, r);
    InsertKeepsAligned(rest, at, r);
    RelinkedSizes(rs, free, rest, at, r);
  }

  /** Some range is set up for the pages of `page`, or is clean and can be recycled for them. */
  ghost predicate HasRoomFor(rs: seq<BitmapRange>, page: int) {
    exists i | 0 <= i < |rs| :: rs[i].basePage == BaseOf(page) || rs[i].dirtyPages == 0
  }

  /** The windows of the file in which pages are dirty. */
  ghost function Windows(dirty: set<int>): set<int> {
    set p | p in dirty :: BaseOf(p)
  }

  /** The bases of the ranges that are not clean. */
  ghost function DirtyBases(rs: seq<BitmapRange>): set<int> {
    set i | 0 <= i < |rs| && rs[i].dirtyPages != 0 :: rs[i].basePage
  }

  lemma {:induction false} DirtyBasesCount(rs: seq<BitmapRange>)
    requires RangesOk(rs)
    ensures |DirtyBases(rs)| <= |rs|
    ensures |DirtyBases(rs)| == |rs| <==> forall i | 0 <= i < |rs| :: rs[i].dirtyPages != 0
  {
    if rs != [] {
      var rest := rs[1..];
      assert forall i | 0 <= i < |rest| :: rest[i] == rs[i + 1];
      DirtyBasesCount(rest);
      assert forall i | 1 <= i < |rs| :: rs[i].dirtyPages != 0 <==> rest[i - 1].dirtyPages != 0;
      DirtyBasesOfRest(rs);
      assert rs[0].dirtyPages != 0 ==> rs[0].basePage !in DirtyBases(rest);
    }
  }

  lemma DirtyBasesOfRest(rs: seq<BitmapRange>)
    requires rs != []
    ensures DirtyBases(rs) == DirtyBases(rs[1..]) + if rs[0].dirtyPages != 0 then {rs[0].basePage} else {}
  {
    var rest := rs[1..];
    assert forall i | 0 <= i < |rest| :: rest[i] == rs[i + 1];
    forall base | base in DirtyBases(rs) ensures base in DirtyBases(rest) || (rs[0].dirtyPages != 0 && base == rs[0].basePage) {
      var i :| 0 <= i < |rs| && rs[i].dirtyPages != 0 && rs[i].basePage == base;
      if i > 0 { assert rest[i - 1] == rs[i]; }
    }
  }

  lemma PageInRange(rs: seq<BitmapRange>, i: nat) returns (p: int)
    requires RangesOk(rs) && Aligned(rs) && i < |rs| && rs[i].dirtyPages != 0
    ensures p in DirtyOf(rs) && BaseOf(p) == rs[i].basePage
  {
    assert RangeOk(rs[i]) && AlignedAt(rs, i);
    hide RangesOk, Aligned, DirtyOf;
    var k := SomeBitSet(rs[i]);
    p := rs[i].basePage + k;
    DirtyOfIn(rs, p);
    BaseIs(rs[i].basePage, p);
  }

  lemma RangeOfPage(rs: seq<BitmapRange>, p: int) returns (i: nat)
    requires RangesOk(rs) && Aligned(rs) && p in DirtyOf(rs)
    ensures i < |rs| && rs[i].dirtyPages != 0 && BaseOf(p) == rs[i].basePage
  {
    hide DirtyOf;
    DirtyOfIn(rs, p);
    i :| 0 <= i < |rs| && p in Pages(rs[i]);
    assert AlignedAt(rs, i) && rs[i].dirtyPages > 0;
    BaseIs(rs[i].basePage, p);
  }

  lemma WindowsAreDirtyBases(rs: seq<BitmapRange>)
    requires RangesOk(rs) && Aligned(rs)
    ensures Windows(DirtyOf(rs)) == DirtyBases(rs)
  {
    hide RangesOk, Aligned, DirtyOf;
    forall base | base in DirtyBases(rs) ensures base in Windows(DirtyOf(rs)) {
      var i :| 0 <= i < |rs| && rs[i].dirtyPages != 0 && rs[i].basePage == base;
      var p := PageInRange(rs, i);
    }
    forall p | p in DirtyOf(rs) ensures BaseOf(p) in DirtyBases(rs) {
      var i := RangeOfPage(rs, p);
    }
  }

  lemma BaseIs(base: int, page: int)
    requires IsWindow(base) && base <= page < base + RANGE_PAGES
    ensures BaseOf(page) == base
  {
    if base < BaseOf(page) {
      WindowApart(base, BaseOf(page));
    } else if BaseOf(page) < base {
      WindowApart(BaseOf(page), base);
    }
  }

  /** There is room for a page if and only if its window has dirty pages, or there are more ranges than windows
      that have. */
  lemma HasRoomIff(rs: seq<BitmapRange>, page: int)
    requires RangesOk(rs) && Aligned(rs)
    ensures HasRoomFor(rs, page) <==> BaseOf(page) in Windows(DirtyOf(rs)) || |Windows(DirtyOf(rs))| < |rs|
  {
    hide RangesOk, Aligned, DirtyOf, Windows;
    WindowsAreDirtyBases(rs);
    DirtyBasesCount(rs);
  }

  /** The initial bitmap is copied out and zeroed, but only if it holds a dirty page. */
  method MovedBits(r: BitmapRange, bitmap: Bitmap) returns (moved: BitmapRange, memory: Bitmap)
    requires RangeOk(r) && |r.bitmap| == INITIAL_PAGES && bitmap == ZERO_BITMAP
    ensures moved == r.(bitmap := moved.bitmap) && |moved.bitmap| == RANGE_PAGES && Pages(moved) == Pages(r)
    ensures forall k | 0 <= k < |moved.bitmap| && moved.bitmap[k] :: r.firstDirtyPage <= k <= r.lastDirtyPage
    ensures memory == seq(INITIAL_PAGES, _ => false)
  {
    if r.dirtyPages != 0 {
      moved := r.(bitmap := r.bitmap + bitmap[INITIAL_PAGES..]);
      memory := seq(INITIAL_PAGES, _ => false);
    } else {
      CleanRangeIsZero(r);
      moved, memory := r.(bitmap := bitmap), r.bitmap;
    }
  }

  class Mbcb {
    var grande: bool
    var pagesToWrite: nat
    var dirtyPages: int
    var resumeWritePage: int
    var ranges: seq<BitmapRange>

    ghost predicate Valid()
      reads this
    {
      && ranges != [] && RangesOk(ranges) && Aligned(ranges) && dirtyPages == Sum(ranges) && resumeWritePage >= 0
      && (!grande ==> |ranges| == 1 && ranges[0].basePage == 0 && |ranges[0].bitmap| == INITIAL_PAGES)
      && (grande ==> LargeBitmaps(ranges))
    }

    ghost function Dirty(): set<int>
      reads this
    {
      DirtyOf(ranges)
    }

    /** A fresh Mbcb: one range, on the rest of the structure's own zeroed memory. */
    constructor ()
      ensures Valid() && Dirty() == {} && !grande && dirtyPages == pagesToWrite == resumeWritePage == 0
    {
      grande, pagesToWrite, dirtyPages, resumeWritePage := false, 0, 0, 0;
      ranges := [BitmapRange(0, MAXULONG, 0, 0, seq(INITIAL_PAGES, _ => false))];
      new;
      assert Pages(ranges[0]) == {};
      OneRange(ranges[0]);
      assert ranges == [ranges[0]] && 0 == Window(0);
    }

    /** Switches to the large form: the bits move to `bitmap`, and the memory they leave becomes two more
        ranges. */
    method Promote(bitmap: Bitmap)
      requires Valid() && !grande && bitmap == ZERO_BITMAP
      modifies this`ranges, this`grande
      ensures Valid() && grande && Dirty() == old(Dirty())
      ensures |ranges| == 3 && ranges[1] == ranges[2] == UNSET && Bitmaps(ranges) == 1
    {
      ghost var was := ranges[0];
      var range1, memory := MovedBits(ranges[0], bitmap);
      var half2, half3 := memory[..256], memory[256..];
      ZeroMemoryIsACleanRange(half2);
      ZeroMemoryIsACleanRange(half3);
      assert ranges == [was];
      PromotedRanges(was, range1);
      ranges := [range1, EmbeddedRange(half2), EmbeddedRange(half3)];
      OneBitmap(range1);
      grande := true;
    }

    /** The list walk of CcFindBitmapRangeToDirty: an exact match, or the lowest clean range and the range to
        insert behind (-1 is the list head). */
    method SearchRangeToDirty(basePage: int) returns (exact: int, free: int, insertPoint: int)
      requires ranges != [] && Sorted(ranges)
      ensures -1 <= exact < |ranges| && -1 <= free < |ranges| && -1 <= insertPoint < |ranges|
      ensures exact >= 0 ==> ranges[exact].basePage == basePage
      ensures exact == -1 ==> forall k | 0 <= k < |ranges| :: ranges[k].basePage != basePage
      ensures exact == -1 && free >= 0 ==> ranges[free].dirtyPages == 0 && free != insertPoint
      ensures exact == -1 ==> forall k | 0 <= k < (if free == -1 then |ranges| else free) :: ranges[k].dirtyPages != 0
      ensures exact == -1 ==> forall k | 0 <= k <= insertPoint :: ranges[k].basePage < basePage
      ensures exact == -1 ==> forall k | insertPoint < k < |ranges| && k != free :: basePage < ranges[k].basePage
    {
      free, insertPoint := -1, -1;
      var i := 0;
      while i == 0 || (i < |ranges| && (basePage >= ranges[i].basePage || free == -1))
        invariant 0 <= i <= |ranges|
        invariant -1 <= free < i && -1 <= insertPoint < i && (free == -1 || free != insertPoint)
        invariant forall k | 0 <= k < i :: ranges[k].basePage != basePage
        invariant forall k | 0 <= k < (if free == -1 then i else free) :: ranges[k].dirtyPages != 0
        invariant free >= 0 ==> ranges[free].dirtyPages == 0
        invariant insertPoint >= 0 ==> ranges[insertPoint].basePage < basePage
        invariant forall k | insertPoint < k < i && k != free :: basePage < ranges[k].basePage
        decreases |ranges| - i
      {
        if basePage == ranges[i].basePage {
          return i, -1, -1;
        } else if ranges[i].dirtyPages == 0 && free == -1 {
          free := i;
        } else if basePage > ranges[i].basePage {
          insertPoint := i;
        }
        i := i + 1;
      }
      exact := -1;
    }

    /** Takes the clean range at `free` out of the list, or a new one, and links it in behind `insertPoint`. */
    method Relink(basePage: int, free: int, insertPoint: int, freeBitmap: Bitmap)
      returns (found: int, bitmapLeft: Bitmap)
      requires Valid() && grande && freeBitmap == ZERO_BITMAP
      requires 0 <= basePage < PAGE_LIMIT && IsWindow(basePage)
      requires -1 <= free < |ranges| && -1 <= insertPoint < |ranges|
      requires free >= 0 ==> free != insertPoint && ranges[free].dirtyPages == 0
      requires forall k | 0 <= k <= insertPoint :: ranges[k].basePage < basePage
      requires forall k | insertPoint < k < |ranges| && k != free :: basePage < ranges[k].basePage
      modifies this`ranges
      ensures Valid() && Dirty() == old(Dirty())
      ensures 0 <= found < |ranges| && ranges[found].basePage == basePage && |ranges[found].bitmap| == RANGE_PAGES
      ensures Bitmaps(ranges) + Count(bitmapLeft) == Bitmaps(old(ranges)) + 1
      ensures |ranges| == |old(ranges)| + if free >= 0 then 0 else 1
    {
      hide Sorted, Aligned, DirtyOf, Bitmaps, Sum, Pages;
      var was := if free >= 0 then ranges[free] else UNSET;
      var rest := Without(ranges, free);
      var range := FreshRange(was, basePage, freeBitmap);
      bitmapLeft := if was.bitmap == [] then [] else freeBitmap;
      found := if 0 <= free < insertPoint then insertPoint else insertPoint + 1;
      Relinked(ranges, free, insertPoint, basePage, rest, found, range);
      FreshRangeOk(was, basePage);
      BitmapsRelinked(ranges, free, rest, found, was, range);
      ranges := rest[..found] + [range] + rest[found..];
    }

    /** CcFindBitmapRangeToDirty. Returns the index of the range to set bits in, or -1 if the pool is empty;
        `bitmapLeft` is what is left of the caller's preallocated bitmap: a range has it, or it is returned. The
        dirty set stays as it is. */
    method FindRangeToDirty(page: int, freeBitmap: Bitmap, poolOk: bool) returns (found: int, bitmapLeft: Bitmap)
      requires Valid() && 0 <= page < PAGE_LIMIT
      requires grande ==> freeBitmap == ZERO_BITMAP
      requires !grande ==> page < INITIAL_PAGES
      modifies this`ranges
      ensures Valid() && Dirty() == old(Dirty())
      ensures found >= 0 <==> poolOk || HasRoomFor(old(ranges), page)
      ensures |ranges| == |old(ranges)| + if found >= 0 && !HasRoomFor(old(ranges), page) then 1 else 0
      ensures -1 <= found < |ranges| && (found == -1 ==> ranges == old(ranges))
      ensures Bitmaps(ranges) + Count(bitmapLeft) == Bitmaps(old(ranges)) + Count(freeBitmap)
      ensures found >= 0 ==> ranges[found].basePage == BaseOf(page)
      ensures found >= 0 ==> |ranges[found].bitmap| == if grande then RANGE_PAGES else INITIAL_PAGES
    {
      var basePage := BaseOf(page);
      var free, insertPoint;
      found, free, insertPoint := SearchRangeToDirty(basePage);
      if found >= 0 {
        return found, freeBitmap;
      }
      if free == -1 && !poolOk {
        return -1, freeBitmap;
      }
      found, bitmapLeft := Relink(basePage, free, insertPoint, freeBitmap);
    }

    /** One range changes in place, and the Mbcb's own counter follows. */
    method Replace(index: nat, r: BitmapRange)
      requires Valid() && index < |ranges| && RangeOk(r)
      requires r.basePage == ranges[index].basePage && |r.bitmap| == |ranges[index].bitmap|
      modifies this`ranges, this`dirtyPages
      ensures Valid() && ranges == old(ranges)[index := r]
      ensures dirtyPages == old(dirtyPages) - old(ranges[index]).dirtyPages + r.dirtyPages
      ensures Bitmaps(ranges) == Bitmaps(old(ranges))
    {
      BitmapsUpdate(ranges, index, r);
      UpdateRange(ranges, index, r);
      dirtyPages := dirtyPages - ranges[index].dirtyPages + r.dirtyPages;
      ranges := ranges[index := r];
    }

    /** CcFindBitmapRangeToClean: the first dirty range not wholly below `page`, wrapping to the first. */
    method FindRangeToClean(page: int) returns (found: int)
      requires Valid() && dirtyPages != 0 && page >= 0
      ensures 0 <= found < |ranges| && ranges[found].dirtyPages != 0
      ensures page <= ranges[found].basePage + ranges[found].lastDirtyPage ==>
                forall i | 0 <= i < found :: ranges[i].dirtyPages == 0 || ranges[i].basePage + ranges[i].lastDirtyPage < page
      ensures ranges[found].basePage + ranges[found].lastDirtyPage < page ==>
                (forall i | 0 <= i < found :: ranges[i].dirtyPages == 0) &&
                (forall i | 0 <= i < |ranges| && ranges[i].dirtyPages != 0 ::
                   ranges[i].basePage + ranges[i].lastDirtyPage < page)
    {
      SumIsNonNegative(ranges);
      var from, i := page, 0;
      while true
        invariant 0 <= i <= |ranges| && (from == page || from == 0)
        invariant from == page ==>
          forall k | 0 <= k < i :: ranges[k].dirtyPages == 0 || ranges[k].basePage + ranges[k].lastDirtyPage < page
        invariant from != page ==>
          forall k | 0 <= k < |ranges| :: ranges[k].dirtyPages == 0 || ranges[k].basePage + ranges[k].lastDirtyPage < page
        invariant from == 0 ==> forall k | 0 <= k < i :: ranges[k].dirtyPages == 0
        decreases from, |ranges| - i
      {
        if i == |ranges| {
          assert from != 0;
          from, i := 0, 0;
        } else if from <= ranges[i].basePage + ranges[i].lastDirtyPage && ranges[i].dirtyPages != 0 {
          return i;
        } else {
          i := i + 1;
        }
      }
    }
  }
}
