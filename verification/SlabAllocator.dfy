/**
 The registry's own pool allocator. Key control blocks and delay items are carved out of pages; all free slots
 are on one list, and each page counts its own.
 */
module SlabAllocator {
  import opened CacheGlobals

  const HEADER := 8                                // FIELD_OFFSET(CM_ALLOC_PAGE, AllocPage)
  const ROOM := 4096 - HEADER

  /** CM_KCBS_PER_PAGE, CM_DELAYS_PER_PAGE. */
  function PerPage(size: int): int
    requires size > 0
  {
    ROOM / size
  }

  function SlotAt(page: int, j: int, size: int): int {
    page + HEADER + j * size
  }

  /** KCB_TO_PAGE_ADDRESS, DELAY_ALLOC_TO_PAGE_ADDRESS. */
  function PageOf(slot: int): int {
    slot - slot % 4096
  }

  /** The bits that both numbers have. */
  function And(x: nat, y: nat): nat {
    if x == 0 || y == 0 then 0 else (if x % 2 == 1 && y % 2 == 1 then 1 else 0) + 2 * And(x / 2, y / 2)
  }

  /** `n` ones. */
  function Ones(n: nat): nat {
    if n == 0 then 0 else 1 + 2 * Ones(n - 1)
  }

  function Left(x: nat, n: nat): nat {
    if n == 0 then x else 2 * Left(x, n - 1)
  }

  function Right(x: nat, n: nat): nat {
    if n == 0 then x else Right(x, n - 1) / 2
  }

  lemma {:induction false} AndOnes(x: nat, n: nat)
    requires x <= Ones(n)
    ensures And(x, Ones(n)) == x
  {
    if n > 0 && x > 0 { AndOnes(x / 2, n - 1); }
  }

  lemma {:induction false} AndShifted(x: nat, y: nat, n: nat)
    ensures And(x, Left(y, n)) == Left(And(Right(x, n), y), n)
  {
    if n > 0 {
      AndShifted(x / 2, y, n - 1);
      RightOfHalf(x, n - 1);
    }
  }

  lemma {:induction false} RightOfHalf(x: nat, n: nat)
    ensures Right(x / 2, n) == Right(x, n + 1)
  {
    if n > 0 { RightOfHalf(x, n - 1); }
  }

  lemma Shifted4(x: nat, n: nat)
    ensures Left(x, n + 4) == 16 * Left(x, n) && Right(x, n + 4) == Right(x, n) / 16 && Ones(n + 4) == 15 + 16 * Ones(n)
  {
    assert Left(x, n + 3) == 8 * Left(x, n) && Right(x, n + 3) == Right(x, n) / 8 && Ones(n + 3) == 7 + 8 * Ones(n) by {
      assert Left(x, n + 2) == 4 * Left(x, n) && Right(x, n + 2) == Right(x, n) / 4 && Ones(n + 2) == 3 + 4 * Ones(n);
    }
  }

  lemma Shifted12(x: nat)
    ensures Left(x, 12) == 4096 * x && Right(x, 12) == x / 4096
  {
    assert Left(x, 0) == x && Right(x, 0) == x;
    hide Left, Right, Ones;
    Shifted4(x, 0); Shifted4(x, 4); Shifted4(x, 8);
  }

  lemma TwentyOnes()
    ensures Ones(20) == 0xF_FFFF
  {
    assert Ones(0) == 0;
    hide Left, Right, Ones;
    Shifted4(0, 0); Shifted4(0, 4); Shifted4(0, 8); Shifted4(0, 12); Shifted4(0, 16);
  }

  /** Masking any 32-bit address with ~(PAGE_SIZE - 1), as the macros do, is `PageOf`. */
  lemma MaskingIsPageOf(slot: nat)
    requires slot < 0x1_0000_0000
    ensures And(slot, 0xFFFF_F000) == PageOf(slot)
  {
    hide And, Left, Right, Ones;
    TwentyOnes();
    Shifted12(0xF_FFFF);
    Shifted12(slot);
    AndShifted(slot, 0xF_FFFF, 12);
    AndOnes(slot / 4096, 20);
    Shifted12(slot / 4096);
  }

  predicate PageAligned(page: int) {
    page % 4096 == 0
  }

  lemma SlotFits(j: int, size: int)
    requires 0 < size <= ROOM && 0 <= j < PerPage(size)
    ensures 0 <= j * size && HEADER + j * size + size <= 4096
  {
    WholeSlots(size);
    Multiples(j, PerPage(size), size);
    Multiples(0, j + 1, size);
    assert j * size + size == (j + 1) * size;
  }

  lemma WholeSlots(size: int)
    requires 0 < size <= ROOM
    ensures 0 < PerPage(size) && PerPage(size) * size <= ROOM
  {
    assert ROOM / size * size + ROOM % size == ROOM;
  }

  /** The slots `0` to `PerPage - 1` are all that fit on a page: the next one would leave it. */
  lemma NextSlotDoesNotFit(page: int, size: int)
    requires 0 < size <= ROOM
    ensures SlotAt(page, PerPage(size), size) + size > page + 4096
    ensures SlotAt(page, PerPage(size) - 1, size) + size <= page + 4096
  {
    assert ROOM / size * size + ROOM % size == ROOM;
    assert (PerPage(size) - 1) * size + size == PerPage(size) * size;
  }

  lemma {:induction false} Multiples(i: int, j: int, size: int)
    requires 0 < size && i < j
    ensures i * size + size <= j * size
    decreases j - i
  {
    assert (j - 1) * size + size == j * size;
    if i < j - 1 { Multiples(i, j - 1, size); }
  }

  /** Masking the address of a slot recovers its page. */
  lemma SlotInPage(page: int, j: int, size: int)
    requires 0 < size <= ROOM && 0 <= j < PerPage(size) && PageAligned(page)
    ensures PageOf(SlotAt(page, j, size)) == page && page < SlotAt(page, j, size)
  {
    SlotFits(j, size);
    var offset := HEADER + j * size;
    assert (page + offset) % 4096 == offset;
  }

  lemma SlotsDiffer(page: int, i: int, j: int, size: int)
    requires 0 < size && i < j
    ensures SlotAt(page, i, size) + size <= SlotAt(page, j, size)
  {
    Multiples(i, j, size);
  }

  /** The first `n` slots of a page. */
  ghost function FirstSlots(page: int, n: nat, size: int): set<int> {
    if n == 0 then {} else FirstSlots(page, n - 1, size) + {SlotAt(page, n - 1, size)}
  }

  lemma {:induction false} FirstSlotsAre(page: int, n: nat, size: int)
    requires size > 0
    ensures forall s :: s in FirstSlots(page, n, size) <==> exists j | 0 <= j < n :: s == SlotAt(page, j, size)
    ensures |FirstSlots(page, n, size)| == n
  {
    if n > 0 {
      FirstSlotsAre(page, n - 1, size);
      var before := FirstSlots(page, n - 1, size);
      forall s | s in before ensures s != SlotAt(page, n - 1, size) {
        var j :| 0 <= j < n - 1 && s == SlotAt(page, j, size);
        SlotsDiffer(page, j, n - 1, size);
      }
    }
  }

  ghost function Slots(page: int, size: int): set<int>
    requires 0 < size <= ROOM
  {
    FirstSlots(page, PerPage(size), size)
  }

  lemma SlotOfPage(page: int, size: int, s: int)
    requires 0 < size <= ROOM && PageAligned(page) && s in Slots(page, size)
    ensures PageOf(s) == page
  {
    FirstSlotsAre(page, PerPage(size), size);
    var j :| 0 <= j < PerPage(size) && s == SlotAt(page, j, size);
    SlotInPage(page, j, size);
  }

  // ----- The free list and the counts ----------------------------------------------------------------

  predicate NoDuplicates(q: seq<int>) {
    forall i, j | 0 <= i < j < |q| :: q[i] != q[j]
  }

  ghost function Elements(q: seq<int>): (es: set<int>)
    ensures forall x :: x in es <==> x in q
  {
    set x | x in q
  }

  /** The slots in use, free or live, are exactly those of the pages. */
  ghost predicate Covers(size: int, slots: set<int>, freeCount: map<int, int>)
    requires 0 < size <= ROOM
  {
    && (forall p | p in freeCount :: PageAligned(p))
    && (forall s :: s in slots <==> PageOf(s) in freeCount && s in Slots(PageOf(s), size))
  }

  ghost predicate Counted(size: int, free: set<int>, freeCount: map<int, int>)
    requires 0 < size <= ROOM
  {
    forall p | p in freeCount :: freeCount[p] == |free * Slots(p, size)| <= PerPage(size)
  }

  /** Free and live slots are disjoint and together make up the pages, each page counts its free slots, and no
      page but `partial` is wholly free. */
  ghost predicate Consistent(size: int, free: set<int>, freeCount: map<int, int>, live: set<int>, partial: set<int>)
    requires 0 < size <= ROOM
  {
    && free !! live && Covers(size, free + live, freeCount) && Counted(size, free, freeCount)
    && (forall p | p in freeCount && freeCount[p] == PerPage(size) :: p in partial)
  }

  lemma CoversAt(size: int, slots: set<int>, freeCount: map<int, int>, s: int)
    requires 0 < size <= ROOM && Covers(size, slots, freeCount)
    ensures s in slots <==> PageOf(s) in freeCount && s in Slots(PageOf(s), size)
    ensures forall p | p in freeCount :: PageAligned(p)
  {
  }

  lemma CoversUpdate(size: int, slots: set<int>, freeCount: map<int, int>, p: int, n: int)
    requires 0 < size <= ROOM && Covers(size, slots, freeCount) && p in freeCount
    ensures Covers(size, slots, freeCount[p := n])
  {
    hide Slots, PageOf, PageAligned;
  }

  lemma OneLess(a: set<int>, slots: set<int>, s: int)
    requires s in a
    ensures |(a - {s}) * slots| == |a * slots| - if s in slots then 1 else 0
  {
    if s in slots {
      assert (a - {s}) * slots == a * slots - {s};
    } else {
      assert (a - {s}) * slots == a * slots;
    }
  }

  /** Taking a free slot of page `p` out of the list and off the count. */
  lemma CountLess(size: int, free: set<int>, freeCount: map<int, int>, s: int)
    requires 0 < size <= ROOM && Counted(size, free, freeCount) && s in free
    requires (forall p | p in freeCount :: PageAligned(p)) && PageOf(s) in freeCount && s in Slots(PageOf(s), size)
    ensures freeCount[PageOf(s)] > 0
    ensures Counted(size, free - {s}, freeCount[PageOf(s) := freeCount[PageOf(s)] - 1])
    ensures forall q | q in freeCount :: freeCount[q] <= PerPage(size)
  {
    hide Slots;
    var p := PageOf(s);
    assert s in free * Slots(p, size);
    forall q | q in freeCount
      ensures |(free - {s}) * Slots(q, size)| == freeCount[q] - if q == p then 1 else 0
    {
      OneLess(free, Slots(q, size), s);
      if s in Slots(q, size) { SlotOfPage(q, size, s); }
    }
  }

  lemma FirstElement(q: seq<int>)
    requires q != [] && NoDuplicates(q)
    ensures q[0] in Elements(q) && Elements(q[1..]) == Elements(q) - {q[0]} && NoDuplicates(q[1..])
  {
    assert q == [q[0]] + q[1..];
    assert forall i | 0 <= i < |q[1..]| :: q[1..][i] == q[i + 1];
  }

  /** Taking a free slot makes it live. */
  lemma Take(size: int, free: set<int>, freeCount: map<int, int>, live: set<int>, partial: set<int>, s: int)
    requires 0 < size <= ROOM && s in free && Consistent(size, free, freeCount, live, partial) && partial <= {PageOf(s)}
    ensures PageOf(s) in freeCount && freeCount[PageOf(s)] > 0 && s !in live
    ensures Consistent(size, free - {s}, freeCount[PageOf(s) := freeCount[PageOf(s)] - 1], live + {s}, {})
  {
    hide PageOf, PageAligned, Covers, Counted, PerPage;
    Moved(free, live, s);
    CoversAt(size, free + live, freeCount, s);
    CountLess(size, free, freeCount, s);
    CoversUpdate(size, free + live, freeCount, PageOf(s), freeCount[PageOf(s)] - 1);
    NoneFull(freeCount, PerPage(size), PageOf(s));
  }

  lemma NoneFull(freeCount: map<int, int>, n: int, p: int)
    requires p in freeCount && freeCount[p] <= n && forall q | q in freeCount && freeCount[q] == n :: q == p
    ensures forall q | q in freeCount :: freeCount[p := freeCount[p] - 1][q] != n
  {
  }

  lemma Moved(free: set<int>, live: set<int>, s: int)
    requires s in free && free !! live
    ensures (free - {s}) + (live + {s}) == free + live && (free - {s}) !! (live + {s}) && s !in live && s in free + live
  {
  }

  lemma OneMore(a: set<int>, slots: set<int>, s: int)
    requires s !in a
    ensures |(a + {s}) * slots| == |a * slots| + if s in slots then 1 else 0
  {
    if s in slots {
      assert (a + {s}) * slots == a * slots + {s};
    } else {
      assert (a + {s}) * slots == a * slots;
    }
  }

  lemma AtMostAll(a: set<int>, slots: set<int>)
    ensures |a * slots| <= |slots| && (|a * slots| == |slots| <==> slots <= a)
  {
    assert slots == a * slots + (slots - a);
    if slots <= a { assert a * slots == slots; }
  }

  lemma CountMore(size: int, free: set<int>, freeCount: map<int, int>, s: int)
    requires 0 < size <= ROOM && Counted(size, free, freeCount) && s !in free
    requires (forall p | p in freeCount :: PageAligned(p)) && PageOf(s) in freeCount && s in Slots(PageOf(s), size)
    ensures Counted(size, free + {s}, freeCount[PageOf(s) := freeCount[PageOf(s)] + 1])
  {
    hide Slots, PerPage;
    var p := PageOf(s);
    forall q | q in freeCount
      ensures |(free + {s}) * Slots(q, size)| == freeCount[q] + (if q == p then 1 else 0) <= PerPage(size)
    {
      OneMore(free, Slots(q, size), s);
      AtMostAll(free + {s}, Slots(q, size));
      SlotCount(q, size);
      if s in Slots(q, size) { SlotOfPage(q, size, s); }
    }
  }

  lemma SlotCount(page: int, size: int)
    requires 0 < size <= ROOM
    ensures |Slots(page, size)| == PerPage(size) > 0
  {
    WholeSlots(size);
    FirstSlotsAre(page, PerPage(size), size);
  }

  lemma LastElement(q: seq<int>, s: int)
    requires NoDuplicates(q) && s !in Elements(q)
    ensures Elements(q + [s]) == Elements(q) + {s} && NoDuplicates(q + [s])
  {
  }

  /** Putting a live slot back on the list and on its page's count. */
  lemma GiveBack(size: int, free: set<int>, freeCount: map<int, int>, live: set<int>, s: int)
    requires 0 < size <= ROOM && Consistent(size, free, freeCount, live, {}) && s in live
    ensures var p := PageOf(s);
            && p in freeCount && freeCount[p] < PerPage(size) && s !in free
            && Consistent(size, free + {s}, freeCount[p := freeCount[p] + 1], live - {s}, {p})
  {
    hide PageOf, PageAligned, Covers, Counted, PerPage;
    MovedBack(free, live, s);
    CoversAt(size, free + live, freeCount, s);
    CountMore(size, free, freeCount, s);
    CoversUpdate(size, free + live, freeCount, PageOf(s), freeCount[PageOf(s)] + 1);
    BelowAll(size, free, freeCount, PageOf(s));
  }

  lemma BelowAll(size: int, free: set<int>, freeCount: map<int, int>, p: int)
    requires 0 < size <= ROOM && Counted(size, free, freeCount) && p in freeCount
    ensures freeCount[p] <= PerPage(size)
  {
  }

  lemma MovedBack(free: set<int>, live: set<int>, s: int)
    requires s in live && free !! live
    ensures (free + {s}) + (live - {s}) == free + live && (free + {s}) !! (live - {s}) && s !in free && s in free + live
  {
  }

  lemma NotAll(slots: set<int>, free: set<int>) returns (s: int)
    requires !(slots <= free)
    ensures s in slots && s !in free
  {
    assert (forall x: int | x in slots :: x in free) ==> slots <= free;
    s :| s in slots && s !in free;
  }

  /** The count of a page is full exactly when none of its slots is live; then they are all free. */
  lemma FullIff(size: int, free: set<int>, freeCount: map<int, int>, live: set<int>, p: int)
    requires 0 < size <= ROOM && Consistent(size, free, freeCount, live, {p}) && p in freeCount
    ensures freeCount[p] == PerPage(size) <==> forall s | s in live :: PageOf(s) != p
    ensures freeCount[p] == PerPage(size) <==> Slots(p, size) <= free
  {
    hide PageOf, PerPage, PageAligned;
    SlotCount(p, size);
    AtMostAll(free, Slots(p, size));
    if Slots(p, size) <= free {
      forall s | s in live ensures PageOf(s) != p {
        CoversAt(size, free + live, freeCount, s);
      }
    } else {
      var s := NotAll(Slots(p, size), free);
      CoversAt(size, free + live, freeCount, s);
      SlotOfPage(p, size, s);
    }
  }

  lemma PagesApart(size: int, p: int, q: int)
    requires 0 < size <= ROOM && PageAligned(p) && PageAligned(q) && p != q
    ensures Slots(p, size) !! Slots(q, size)
  {
    forall s | s in Slots(p, size) ensures s !in Slots(q, size) {
      SlotOfPage(p, size, s);
      if s in Slots(q, size) { SlotOfPage(q, size, s); }
    }
  }

  lemma OthersCounted(size: int, free: set<int>, freeCount: map<int, int>, p: int)
    requires 0 < size <= ROOM && Counted(size, free, freeCount) && p in freeCount
    requires forall q | q in freeCount :: PageAligned(q)
    ensures Counted(size, free - Slots(p, size), freeCount - {p})
  {
    hide PageAligned, PerPage;
    forall q | q in freeCount && q != p ensures |(free - Slots(p, size)) * Slots(q, size)| == |free * Slots(q, size)| {
      PagesApart(size, p, q);
      assert (free - Slots(p, size)) * Slots(q, size) == free * Slots(q, size);
    }
  }

  lemma OthersCovered(size: int, slots: set<int>, freeCount: map<int, int>, p: int)
    requires 0 < size <= ROOM && Covers(size, slots, freeCount) && p in freeCount
    ensures Covers(size, slots - Slots(p, size), freeCount - {p})
  {
    hide PageOf, PageAligned;
    forall s ensures s in slots - Slots(p, size) <==> PageOf(s) in freeCount - {p} && s in Slots(PageOf(s), size) {
      if s in Slots(p, size) { SlotOfPage(p, size, s); }
    }
  }

  /** A page that is wholly free goes, and with it its slots. */
  lemma PageReturned(size: int, free: set<int>, freeCount: map<int, int>, live: set<int>, p: int)
    requires 0 < size <= ROOM && Consistent(size, free, freeCount, live, {p}) && p in freeCount && Slots(p, size) <= free
    ensures Consistent(size, free - Slots(p, size), freeCount - {p}, live, {})
  {
    hide PageAligned, PerPage, Counted, Covers;
    CoversAt(size, free + live, freeCount, p);
    OthersCounted(size, free, freeCount, p);
    OthersCovered(size, free + live, freeCount, p);
    assert (free - Slots(p, size)) + live == (free + live) - Slots(p, size);
  }

  /** A new page, all of whose slots are free. */
  lemma PageAdded(size: int, freeCount: map<int, int>, live: set<int>, p: int)
    requires 0 < size <= ROOM && Consistent(size, {}, freeCount, live, {}) && PageAligned(p) && p !in freeCount
    ensures Consistent(size, Slots(p, size), freeCount[p := PerPage(size)], live, {p})
  {
    hide PageAligned, PerPage, PageOf;
    SlotCount(p, size);
    forall s | s in live ensures s !in Slots(p, size) {
      CoversAt(size, {} + live, freeCount, s);
      if s in Slots(p, size) { SlotOfPage(p, size, s); }
    }
    NewCounted(size, freeCount, live, p);
    NewCovered(size, live, freeCount, p);
  }

  lemma NewCounted(size: int, freeCount: map<int, int>, live: set<int>, p: int)
    requires 0 < size <= ROOM && Consistent(size, {}, freeCount, live, {}) && PageAligned(p) && p !in freeCount
    ensures Counted(size, Slots(p, size), freeCount[p := PerPage(size)])
  {
    hide PageAligned, PerPage, PageOf, Covers;
    SlotCount(p, size);
    CoversAt(size, {} + live, freeCount, p);
    assert Slots(p, size) * Slots(p, size) == Slots(p, size);
    forall q | q in freeCount ensures |Slots(p, size) * Slots(q, size)| == freeCount[q] {
      PagesApart(size, p, q);
      assert Slots(p, size) * Slots(q, size) == {} == {} * Slots(q, size);
    }
  }

  lemma NewCovered(size: int, live: set<int>, freeCount: map<int, int>, p: int)
    requires 0 < size <= ROOM && Covers(size, {} + live, freeCount) && PageAligned(p) && p !in freeCount
    ensures Covers(size, Slots(p, size) + live, freeCount[p := PerPage(size)])
  {
    hide PageOf, PageAligned, PerPage;
    forall s ensures s in Slots(p, size) + live <==> PageOf(s) in freeCount[p := PerPage(size)] && s in Slots(PageOf(s), size) {
      CoversAt(size, {} + live, freeCount, s);
      if s in Slots(p, size) { SlotOfPage(p, size, s); }
    }
  }

  // ----- The allocator -------------------------------------------------------------------------------

  function IndexOf(q: seq<int>, x: int): (k: nat)
    requires x in q
    ensures k < |q| && q[k] == x
    decreases |q|
  {
    if q[0] == x then 0 else 1 + IndexOf(q[1..], x)
  }

  function Removed(q: seq<int>, x: int): seq<int>
    requires x in q
  {
    q[..IndexOf(q, x)] + q[IndexOf(q, x) + 1..]
  }

  lemma RemovedIs(q: seq<int>, x: int)
    requires x in q && NoDuplicates(q)
    ensures NoDuplicates(Removed(q, x)) && Elements(Removed(q, x)) == Elements(q) - {x}
  {
    var k := IndexOf(q, x);
    assert q == q[..k] + [q[k]] + q[k + 1..];
  }

  lemma OneSlotMore(page: int, j: nat, size: int)
    requires size > 0
    ensures FirstSlots(page, j + 1, size) == FirstSlots(page, j, size) + {SlotAt(page, j, size)}
    ensures SlotAt(page, j, size) !in FirstSlots(page, j, size)
  {
    FirstSlotsAre(page, j, size);
    if SlotAt(page, j, size) in FirstSlots(page, j, size) {
      var i :| 0 <= i < j && SlotAt(page, j, size) == SlotAt(page, i, size);
      SlotsDiffer(page, i, j, size);
    }
  }

  lemma FirstOfAll(page: int, j: nat, size: int)
    requires 0 < size <= ROOM && j < PerPage(size)
    ensures SlotAt(page, j, size) in Slots(page, size)
  {
    FirstSlotsAre(page, PerPage(size), size);
  }

  class Slab {
    const size: int                               // of an entry
    var freeList: seq<int>                        // CmpFreeKCBListHead, CmpFreeDelayItemsListHead
    var freeCount: map<int, int>                  // the FreeCount of each page
    ghost var live: set<int>                      // slots handed out

    ghost predicate Valid()
      reads this
    {
      0 < size <= ROOM && NoDuplicates(freeList) && Consistent(size, Elements(freeList), freeCount, live, {})
    }

    constructor (size: int)
      requires 0 < size <= ROOM
      ensures Valid() && live == {} && this.size == size && freeCount == map[]
    {
      this.size := size;
      freeList, freeCount, live := [], map[], {};
      new;
      assert Elements(freeList) + live == {};
    }

    /** Sets up a page and inserts all its slots in the free list. */
    method AddPage(page: int)
      requires Valid() && freeList == [] && PageAligned(page) && page !in freeCount
      modifies this`freeList, this`freeCount
      ensures NoDuplicates(freeList) && Consistent(size, Elements(freeList), freeCount, live, {page})
      ensures freeList != [] && freeCount == old(freeCount)[page := PerPage(size)] && PageOf(freeList[0]) == page
    {
      hide Consistent, PageOf, PageAligned, PerPage, SlotAt, NoDuplicates;
      WholeSlots(size);
      assert Elements(freeList) == {};
      PageAdded(size, freeCount, live, page);
      freeCount := freeCount[page := PerPage(size)];
      InsertSlots(page);
      assert freeList[0] in Elements(freeList);
      SlotOfPage(page, size, freeList[0]);
    }

    method InsertSlots(page: int)
      requires 0 < size <= ROOM && freeList == []
      modifies this`freeList
      ensures NoDuplicates(freeList) && Elements(freeList) == Slots(page, size) && freeList != []
    {
      hide PerPage, SlotAt;
      WholeSlots(size);
      for j := 0 to PerPage(size)
        invariant NoDuplicates(freeList) && Elements(freeList) == FirstSlots(page, j, size) && |freeList| == j
      {
        OneSlotMore(page, j, size);
        LastElement(freeList, SlotAt(page, j, size));
        freeList := freeList + [SlotAt(page, j, size)];
      }
    }

    method RemoveSlots(page: int)
      requires 0 < size <= ROOM && NoDuplicates(freeList) && Slots(page, size) <= Elements(freeList)
      modifies this`freeList
      ensures NoDuplicates(freeList) && Elements(freeList) == old(Elements(freeList)) - Slots(page, size)
    {
      hide PerPage, SlotAt, NoDuplicates;
      WholeSlots(size);
      ghost var free := Elements(freeList);
      for j := 0 to PerPage(size)
        invariant NoDuplicates(freeList) && Elements(freeList) == free - FirstSlots(page, j, size)
      {
        FirstOfAll(page, j, size);
        OneSlotMore(page, j, size);
        RemoveEntry(SlotAt(page, j, size));
      }
    }

    /** CmpAllocateDelayItem, and the part of CmpAllocateKeyControlBlock under the lock. `memory` is the page
        that the pool gives if it is asked for one. */
    method AllocateSlot(memory: Option<int>) returns (slot: Option<int>)
      requires Valid() && (memory.Some? ==> PageAligned(memory.value) && memory.value !in freeCount)
      modifies this
      ensures Valid()
      ensures slot.None? <==> old(freeList) == [] && memory.None?
      ensures slot.None? ==> freeList == old(freeList) && freeCount == old(freeCount) && live == old(live)
      ensures slot.Some? ==> slot.value !in old(live) && live == old(live) + {slot.value} && PageOf(slot.value) in freeCount
      ensures old(freeList) != [] ==> slot.Some? && [slot.value] + freeList == old(freeList) && freeCount.Keys == old(freeCount).Keys
      ensures old(freeList) == [] && memory.Some? ==> freeCount.Keys == old(freeCount).Keys + {memory.value} && PageOf(slot.value) == memory.value
    {
      hide Consistent, PageOf, PageAligned, PerPage, NoDuplicates;
      ghost var partial := {};
      if freeList == [] {
        if memory.None? {
          return None;
        }
        AddPage(memory.value);
        partial := {memory.value};
      }
      FirstElement(freeList);
      var s := freeList[0];
      Take(size, Elements(freeList), freeCount, live, partial, s);
      freeList := freeList[1..];
      freeCount := freeCount[PageOf(s) := freeCount[PageOf(s)] - 1];
      live := live + {s};
      slot := Some(s);
    }

    method RemoveEntry(slot: int)
      requires slot in freeList && NoDuplicates(freeList)
      modifies this`freeList
      ensures NoDuplicates(freeList) && Elements(freeList) == old(Elements(freeList)) - {slot}
    {
      RemovedIs(freeList, slot);
      freeList := Removed(freeList, slot);
    }

    /** CmpFreeDelayItem, and CmpFreeKeyControlBlock for a private block. The page goes back to the pool exactly
        when no other slot of it is live, and then none of its slots is left on the list. */
    method FreeSlot(slot: int)
      requires Valid() && slot in live
      modifies this
      ensures Valid() && live == old(live) - {slot} && PageOf(slot) in old(freeCount)
      ensures PageOf(slot) !in freeCount <==> forall s | s in old(live) :: s == slot || PageOf(s) != PageOf(slot)
      ensures freeCount.Keys - {PageOf(slot)} == old(freeCount).Keys - {PageOf(slot)}
      ensures freeCount.Keys <= old(freeCount).Keys
      ensures PageOf(slot) in freeCount ==> freeList == old(freeList) + [slot]
      ensures PageOf(slot) !in freeCount ==>
                Elements(freeList) == old(Elements(freeList)) + {slot} - Slots(PageOf(slot), size) &&
                forall s | s in freeList :: PageOf(s) != PageOf(slot)
    {
      hide Consistent, PageOf, PageAligned, PerPage, SlotAt, NoDuplicates;
      var page := PageOf(slot);
      GiveBack(size, Elements(freeList), freeCount, live, slot);
      LastElement(freeList, slot);
      freeList, live := freeList + [slot], live - {slot};
      freeCount := freeCount[page := freeCount[page] + 1];
      FullIff(size, Elements(freeList), freeCount, live, page);
      WholeSlots(size);
      if freeCount[page] == PerPage(size) {
        ghost var free := Elements(freeList);
        PageReturned(size, free, freeCount, live, page);
        RemoveSlots(page);
        freeCount := freeCount - {page};
        NoneOfPage(size, Elements(freeList), freeCount, live, page);
      } else {
        StillPartial(size, Elements(freeList), freeCount, live, page);
      }
    }
  }

  lemma NoneOfPage(size: int, free: set<int>, freeCount: map<int, int>, live: set<int>, page: int)
    requires 0 < size <= ROOM && Consistent(size, free, freeCount, live, {}) && page !in freeCount
    ensures forall s | s in free :: PageOf(s) != page
  {
    forall s | s in free ensures PageOf(s) != page {
      CoversAt(size, free + live, freeCount, s);
    }
  }

  lemma StillPartial(size: int, free: set<int>, freeCount: map<int, int>, live: set<int>, page: int)
    requires 0 < size <= ROOM && Consistent(size, free, freeCount, live, {page}) && page in freeCount && freeCount[page] != PerPage(size)
    ensures Consistent(size, free, freeCount, live, {})
  {
  }

  /** Key control blocks come from the slab, or one by one from paged pool when there is no page to be had. */
  class KeyControlBlocks {
    const slab: Slab
    var inited: bool                              // CmpAllocInited
    var privateAlloc: map<int, bool>              // the PrivateAlloc flag of each block handed out
    ghost var pool: set<int>                      // blocks handed out of paged pool

    ghost predicate Valid()
      reads this, slab
    {
      && slab.Valid() && privateAlloc.Keys == slab.live + pool
      && (forall kcb | kcb in slab.live :: privateAlloc[kcb]) && (forall kcb | kcb in pool :: !privateAlloc[kcb])
      && (forall kcb | kcb in pool :: PageOf(kcb) !in slab.freeCount)
    }

    /** All blocks handed out. */
    ghost function Blocks(): set<int>
      reads this, slab
    {
      slab.live + pool
    }

    constructor (size: int)
      requires 0 < size <= ROOM
      ensures Valid() && Blocks() == {} && fresh(slab) && !inited
    {
      slab := new Slab(size);
      inited, privateAlloc, pool := false, map[], {};
    }

    /** CmpAllocateKeyControlBlock. `page` and `chunk` are what the pool gives when asked for a page or for a
        single block: memory that is not in use. */
    method Allocate(page: Option<int>, chunk: Option<int>) returns (kcb: Option<int>)
      requires Valid()
      requires page.Some? ==> PageAligned(page.value) && page.value !in slab.freeCount && forall b | b in pool :: PageOf(b) != page.value
      requires chunk.Some? ==> chunk.value !in Blocks() && PageOf(chunk.value) !in slab.freeCount
      modifies this, slab
      ensures Valid()
      ensures kcb.None? <==> (!inited || (old(slab.freeList) == [] && page.None?)) && chunk.None?
      ensures kcb.Some? ==> kcb.value !in old(Blocks()) && Blocks() == old(Blocks()) + {kcb.value}
      ensures kcb.Some? ==> (privateAlloc[kcb.value] <==> inited && (old(slab.freeList) != [] || page.Some?))
      ensures kcb.None? ==> Blocks() == old(Blocks())
      ensures inited == old(inited)
    {
      hide PageOf, PageAligned, Consistent, NoDuplicates;
      if inited {
        kcb := slab.AllocateSlot(page);
        if kcb.Some? {
          privateAlloc := privateAlloc[kcb.value := true];
          return;
        }
      }
      kcb := chunk;
      if kcb.Some? {
        privateAlloc, pool := privateAlloc[kcb.value := false], pool + {kcb.value};
      }
    }

    /** CmpFreeKeyControlBlock: a private block goes back to its page, another back to paged pool. */
    method Free(kcb: int)
      requires Valid() && kcb in Blocks()
      modifies this, slab
      ensures Valid() && Blocks() == old(Blocks()) - {kcb} && inited == old(inited)
      ensures !old(privateAlloc)[kcb] ==> slab.freeList == old(slab.freeList) && slab.freeCount == old(slab.freeCount)
      ensures old(privateAlloc)[kcb] ==>
                (PageOf(kcb) !in slab.freeCount <==> forall b | b in old(slab.live) :: b == kcb || PageOf(b) != PageOf(kcb))
    {
      hide PageOf, PageAligned, Consistent, NoDuplicates;
      if !privateAlloc[kcb] {
        privateAlloc, pool := privateAlloc - {kcb}, pool - {kcb};
        return;
      }
      slab.FreeSlot(kcb);
      privateAlloc := privateAlloc - {kcb};
    }
  }
}
