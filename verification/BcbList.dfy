/**
 The list of Bcbs of a stream, in descending order of file offset: CcFindBcb with its two loops,
 CcAllocateInitializeBcb, CcPinFileData, CcUnpinFileDataEx and CcSetDirtyPinnedData. The list is a sequence
 that the operations reassign; index 0 is its head, and a Bcb is named by its file offset.
 */
module BcbList {
  import opened CacheGlobals

  const FOUR_GB := 0x1_0000_0000

  datatype Bcb = Bcb(
    fileOffset: int, byteLength: int, beyondLastByte: int, pinCount: nat, dirty: bool,
    oldestLsn: int, newestLsn: int, mapped: bool)
  {
    predicate Covers(offset: int) { fileOffset <= offset < beyondLastByte }
  }

  ghost predicate PageAligned(x: int) {
    exists q :: x == PageStart(q)
  }

  function PageStart(q: int): int { 4096 * q }

  ghost predicate BcbOk(b: Bcb) {
    && 0 <= b.fileOffset && 0 < b.byteLength < FOUR_GB && b.beyondLastByte == b.fileOffset + b.byteLength
    && PageAligned(b.fileOffset) && PageAligned(b.byteLength) && LsnsOk(b)
  }

  /** No Lsn at all, or a range of them. */
  predicate LsnsOk(b: Bcb) {
    0 <= b.oldestLsn <= b.newestLsn && (b.oldestLsn == 0 ==> b.newestLsn == 0)
  }

  ghost predicate Descending(bcbs: seq<Bcb>) {
    forall i, j | 0 <= i < j < |bcbs| :: bcbs[j].beyondLastByte <= bcbs[i].fileOffset
  }

  /** Every Bcb is pinned, or dirty and unmapped. */
  ghost predicate InUse(bcbs: seq<Bcb>) {
    forall i | 0 <= i < |bcbs| :: bcbs[i].pinCount > 0 || (bcbs[i].dirty && !bcbs[i].mapped)
  }

  ghost predicate EachOk(bcbs: seq<Bcb>) {
    forall i | 0 <= i < |bcbs| :: BcbOk(bcbs[i])
  }

  ghost predicate ListOk(bcbs: seq<Bcb>) {
    EachOk(bcbs) && Descending(bcbs)
  }

  // ----- CcFindBcb ---------------------------------------------------------------------------------

  /** The low half of a LARGE_INTEGER. */
  function Low(x: int): int { x % 0x1_0000_0000 }

  function WithLow(x: int, low: int): int { x - Low(x) + low }

  /** `k` is the first entry that does not lie wholly above `offset`. */
  predicate StopsAt(bcbs: seq<Bcb>, offset: int, k: int) {
    && 0 <= k <= |bcbs|
    && (forall i | 0 <= i < k :: offset < bcbs[i].fileOffset)
    && (k < |bcbs| ==> bcbs[k].fileOffset <= offset)
  }

  /** The end of the requested range, cut off where the next Bcb above begins. */
  function Truncated(bcbs: seq<Bcb>, k: int, beyond: int): int
    requires 0 <= k <= |bcbs|
  {
    if k > 0 && beyond >= bcbs[k - 1].fileOffset then bcbs[k - 1].fileOffset else beyond
  }

  /** The 64-bit loop. */
  method FindBcb64(bcbs: seq<Bcb>, offset: int, beyondLastByte: int) returns (found: bool, k: nat, beyond: int)
    requires ListOk(bcbs)
    ensures StopsAt(bcbs, offset, k) && beyond == Truncated(bcbs, k, beyondLastByte)
    ensures found <==> k < |bcbs| && bcbs[k].Covers(offset)
  {
    found, k, beyond := false, 0, beyondLastByte;
    while k < |bcbs|
      invariant 0 <= k <= |bcbs| && forall i | 0 <= i < k :: offset < bcbs[i].fileOffset
      invariant !found && beyond == Truncated(bcbs, k, beyondLastByte)
    {
      assert BcbOk(bcbs[k]);
      if offset >= bcbs[k].beyondLastByte {
        break;
      }
      if offset >= bcbs[k].fileOffset {
        found := true;
        break;
      }
      if beyond >= bcbs[k].fileOffset {
        beyond := bcbs[k].fileOffset;
      }
      k := k + 1;
    }
  }

  /** What the 32-bit loop makes of the end of the range: it looks at, and replaces, the low half only. */
  function LowTruncated(bcbs: seq<Bcb>, k: int, beyond: int): int
    requires 0 <= k <= |bcbs|
  {
    if k > 0 && Low(beyond) >= bcbs[k - 1].fileOffset then WithLow(beyond, bcbs[k - 1].fileOffset) else beyond
  }

  lemma LowIsSelf(x: int)
    requires 0 <= x < FOUR_GB
    ensures Low(x) == x
  {
  }

  lemma LowReplaced(x: int, low: int)
    requires 0 <= low < FOUR_GB
    ensures Low(WithLow(x, low)) == low && forall other :: WithLow(WithLow(x, low), other) == WithLow(x, other)
  {
  }

  /** The 32-bit loop. */
  method FindBcb32(bcbs: seq<Bcb>, offset: int, beyondLastByte: int) returns (found: bool, k: nat, beyond: int)
    requires ListOk(bcbs) && 0 <= offset < FOUR_GB && 0 <= beyondLastByte
    requires forall i | 0 <= i < |bcbs| :: bcbs[i].beyondLastByte < FOUR_GB
    ensures StopsAt(bcbs, offset, k) && beyond == LowTruncated(bcbs, k, beyondLastByte)
    ensures found <==> k < |bcbs| && bcbs[k].Covers(offset)
  {
    hide Low;
    LowIsSelf(offset);
    found, k, beyond := false, 0, beyondLastByte;
    while k < |bcbs|
      invariant 0 <= k <= |bcbs| && forall i | 0 <= i < k :: offset < bcbs[i].fileOffset
      invariant !found && beyond == LowTruncated(bcbs, k, beyondLastByte)
    {
      assert BcbOk(bcbs[k]);
      LowIsSelf(bcbs[k].fileOffset);
      LowIsSelf(bcbs[k].beyondLastByte);
      if k > 0 { LowReplaced(beyondLastByte, bcbs[k - 1].fileOffset); }
      if Low(offset) >= Low(bcbs[k].beyondLastByte) {
        break;
      }
      if Low(offset) >= Low(bcbs[k].fileOffset) {
        found := true;
        break;
      }
      if Low(beyond) >= Low(bcbs[k].fileOffset) {
        beyond := WithLow(beyond, Low(bcbs[k].fileOffset));
      }
      k := k + 1;
    }
  }

  /** Whether the caller's and the first entry's offsets let CcFindBcb take the 32-bit loop. */
  predicate Takes32(bcbs: seq<Bcb>, offset: int) {
    offset < FOUR_GB && bcbs != [] && bcbs[0].beyondLastByte < FOUR_GB
  }

  method FindBcb(bcbs: seq<Bcb>, offset: int, beyondLastByte: int) returns (found: bool, k: nat, beyond: int)
    requires ListOk(bcbs) && 0 <= offset && 0 <= beyondLastByte
    ensures StopsAt(bcbs, offset, k)
    ensures found <==> exists i | 0 <= i < |bcbs| :: bcbs[i].Covers(offset)
    ensures found ==> k < |bcbs| && bcbs[k].Covers(offset)
    ensures beyond == if Takes32(bcbs, offset) then LowTruncated(bcbs, k, beyondLastByte)
                      else Truncated(bcbs, k, beyondLastByte)
  {
    if Takes32(bcbs, offset) {
      AllBelowFirst(bcbs);
      found, k, beyond := FindBcb32(bcbs, offset, beyondLastByte);
    } else {
      found, k, beyond := FindBcb64(bcbs, offset, beyondLastByte);
    }
    CoveredWhereItStops(bcbs, offset, k);
  }

  lemma AllBelowFirst(bcbs: seq<Bcb>)
    requires ListOk(bcbs) && bcbs != []
    ensures forall i | 0 <= i < |bcbs| :: bcbs[i].beyondLastByte <= bcbs[0].beyondLastByte
  {
    assert BcbOk(bcbs[0]);
  }

  /** If any Bcb covers the offset, it is the one that the loops stop at. */
  lemma CoveredWhereItStops(bcbs: seq<Bcb>, offset: int, k: int)
    requires ListOk(bcbs) && StopsAt(bcbs, offset, k)
    ensures (exists i | 0 <= i < |bcbs| :: bcbs[i].Covers(offset)) <==> k < |bcbs| && bcbs[k].Covers(offset)
  {
    if i :| 0 <= i < |bcbs| && bcbs[i].Covers(offset) {
      assert i > k ==> bcbs[i].beyondLastByte <= bcbs[k].fileOffset;
    }
  }

  /** The 64-bit loop cuts the range off so that it meets no Bcb, and no sooner. */
  lemma TruncatedIsFree(bcbs: seq<Bcb>, offset: int, k: int, beyond: int)
    requires ListOk(bcbs) && StopsAt(bcbs, offset, k) && offset < beyond
    requires forall i | 0 <= i < |bcbs| :: !bcbs[i].Covers(offset)
    ensures var end := Truncated(bcbs, k, beyond);
            && offset < end <= beyond
            && (forall i | 0 <= i < |bcbs| :: bcbs[i].beyondLastByte <= offset || end <= bcbs[i].fileOffset)
            && (end < beyond ==> exists i | 0 <= i < |bcbs| :: bcbs[i].fileOffset == end)
  {
    var end := Truncated(bcbs, k, beyond);
    forall i | 0 <= i < |bcbs| ensures bcbs[i].beyondLastByte <= offset || end <= bcbs[i].fileOffset {
      assert BcbOk(bcbs[i]) && !bcbs[i].Covers(offset);
      if i > k { assert bcbs[i].beyondLastByte <= bcbs[k].fileOffset; }
      if i < k - 1 { assert bcbs[k - 1].beyondLastByte <= bcbs[i].fileOffset; }
    }
  }

  /** Where the 32-bit loop is taken it gives the 64-bit loop's answer if and only if the requested end is
      below 4 GB, or no Bcb lies above the offset. */
  lemma LoopsAgreeIff(bcbs: seq<Bcb>, offset: int, k: int, beyond: int)
    requires ListOk(bcbs) && Takes32(bcbs, offset) && StopsAt(bcbs, offset, k) && 0 <= offset <= beyond
    ensures LowTruncated(bcbs, k, beyond) == Truncated(bcbs, k, beyond) <==> beyond < FOUR_GB || k == 0
  {
    AllBelowFirst(bcbs);
    if k > 0 {
      assert BcbOk(bcbs[k - 1]);
    }
  }

  // ----- The range that a new Bcb describes ----------------------------------------------------------

  /** ROUND_TO_PAGES on a ULONG. */
  function Rounded(length: int): int {
    Low((length + 4095) / 4096 * 4096)
  }

  /** First byte beyond the view (of VACB_MAPPING_GRANULARITY bytes) that `offset` lies in. */
  function ViewEnd(offset: int): int {
    offset - offset % 0x4_0000 + 0x4_0000
  }

  function PageBase(offset: int): int {
    offset - offset % 4096
  }

  /** TLength as CcPinFileData computes it in 32 bits: up to `bound`, in whole pages, within the view. */
  function NewLength(offset: int, bound: int): int {
    var rounded := Rounded(Low(Low(bound - offset) + offset % 4096));
    var room := ViewEnd(offset) - PageBase(offset);
    if rounded > room then room else rounded
  }

  function NewBcb(offset: int, bound: int): Bcb {
    Bcb(PageBase(offset), NewLength(offset, bound), PageBase(offset) + NewLength(offset, bound), 1, false, 0, 0, false)
  }

  function Inserted(bcbs: seq<Bcb>, k: int, b: Bcb): seq<Bcb>
    requires 0 <= k <= |bcbs|
  {
    bcbs[..k] + [b] + bcbs[k..]
  }

  /** How many bytes there are to describe, from the start of the page on. */
  function Wanted(offset: int, bound: int): int {
    bound - PageBase(offset)
  }

  /** Nothing is asked for, or its size rounds up to 2^32, or is that itself. */
  predicate ComesOutEmpty(offset: int, bound: int) {
    Wanted(offset, bound) == 0 || FOUR_GB - 4096 < Wanted(offset, bound) <= FOUR_GB
  }

  /** The search took the 32-bit loop for a range that ends at or beyond 4 GB, although a Bcb begins above the
      offset in the same view; and the size of the new one does not wrap. */
  predicate MissesNext(bcbs: seq<Bcb>, k: int, offset: int, length: int)
    requires 0 <= k <= |bcbs|
  {
    && Takes32(bcbs, offset) && offset + length >= FOUR_GB && k > 0 && bcbs[k - 1].fileOffset < ViewEnd(offset)
    && Wanted(offset, offset + length) <= FOUR_GB - 4096
  }

  function Bound(bcbs: seq<Bcb>, k: int, offset: int, length: int): int
    requires 0 <= k <= |bcbs|
  {
    if Takes32(bcbs, offset) then LowTruncated(bcbs, k, offset + length) else Truncated(bcbs, k, offset + length)
  }

  lemma Pages(x: int)
    ensures PageAligned(PageBase(x)) && PageBase(x) <= x < PageBase(x) + 4096 && (x >= 0 ==> PageBase(x) >= 0)
  {
    assert PageBase(x) == PageStart(x / 4096);
  }

  lemma AlignedApart(a: int, b: int)
    requires PageAligned(a) && PageAligned(b) && a < b
    ensures a + 4096 <= b
  {
    var p :| a == PageStart(p);
    var q :| b == PageStart(q);
  }

  /** The length without its 32-bit arithmetic: a size that rounds to 2^32 comes out as no bytes at all, and one
      beyond that as a single page. */
  lemma NewLengthIs(offset: int, bound: int)
    requires 0 <= offset <= bound < offset + FOUR_GB
    ensures NewLength(offset, bound) == 0 <==> ComesOutEmpty(offset, bound)
    ensures Wanted(offset, bound) > FOUR_GB ==> NewLength(offset, bound) == 4096
    ensures 0 < Wanted(offset, bound) <= FOUR_GB - 4096 ==>
              bound <= PageBase(offset) + NewLength(offset, bound) < bound + 4096 ||
              PageBase(offset) + NewLength(offset, bound) == ViewEnd(offset) < bound
    ensures PageAligned(NewLength(offset, bound)) && PageAligned(PageBase(offset) + NewLength(offset, bound))
    ensures 0 <= NewLength(offset, bound) <= ViewEnd(offset) - PageBase(offset) < FOUR_GB
  {
    var x := Wanted(offset, bound);
    var low := Low(Low(bound - offset) + offset % 4096);
    assert low == if x < FOUR_GB then x else x - FOUR_GB;
    assert Rounded(low) == if low <= FOUR_GB - 4096 then (low + 4095) / 4096 * 4096 else 0;
    assert ViewEnd(offset) - PageBase(offset) == PageStart(64 * (offset / 0x4_0000) + 64 - offset / 4096);
    assert PageBase(offset) == PageStart(offset / 4096);
    assert NewLength(offset, bound) == PageStart(NewLength(offset, bound) / 4096);
    assert PageBase(offset) + NewLength(offset, bound) == PageStart(offset / 4096 + NewLength(offset, bound) / 4096);
  }

  lemma InsertedAt(bcbs: seq<Bcb>, k: int, b: Bcb)
    requires Descending(bcbs) && 0 <= k <= |bcbs| && b.fileOffset < b.beyondLastByte
    requires forall i | 0 <= i < |bcbs| :: bcbs[i].fileOffset < bcbs[i].beyondLastByte
    requires k < |bcbs| ==> bcbs[k].beyondLastByte <= b.fileOffset
    ensures Descending(Inserted(bcbs, k, b)) <==> k == 0 || b.beyondLastByte <= bcbs[k - 1].fileOffset
  {
    var bcbs' := Inserted(bcbs, k, b);
    assert forall i | 0 <= i < |bcbs'| :: bcbs'[i] == if i < k then bcbs[i] else if i == k then b else bcbs[i - 1];
    if k > 0 && b.beyondLastByte > bcbs[k - 1].fileOffset {
      assert bcbs'[k - 1] == bcbs[k - 1] && bcbs'[k] == b;
    }
  }

  lemma ViewIsAbove(offset: int)
    ensures offset < ViewEnd(offset) && (offset < FOUR_GB ==> ViewEnd(offset) <= FOUR_GB)
  {
  }

  lemma BoundIsAbove(bcbs: seq<Bcb>, k: int, offset: int, length: int)
    requires ListOk(bcbs) && StopsAt(bcbs, offset, k) && 0 <= offset && 0 <= length < FOUR_GB
    ensures offset <= Bound(bcbs, k, offset, length) <= offset + length
    ensures Takes32(bcbs, offset) && offset + length >= FOUR_GB ==> Bound(bcbs, k, offset, length) == offset + length
  {
    if k > 0 { assert BcbOk(bcbs[k - 1]); }
    if Takes32(bcbs, offset) {
      AllBelowFirst(bcbs);
      LoopsAgreeIff(bcbs, offset, k, offset + length);
    }
  }

  /** Below and beyond: how far a range that was cut off at `bound` reaches in whole pages of one view. */
  lemma NewEnd(bcbs: seq<Bcb>, k: int, offset: int, length: int)
    requires ListOk(bcbs) && StopsAt(bcbs, offset, k) && 0 <= offset && 0 <= length < FOUR_GB
    ensures BcbOk(NewBcb(offset, Bound(bcbs, k, offset, length))) <==> !ComesOutEmpty(offset, Bound(bcbs, k, offset, length))
    ensures var end := NewBcb(offset, Bound(bcbs, k, offset, length)).beyondLastByte;
            k == 0 || end <= bcbs[k - 1].fileOffset <==> !MissesNext(bcbs, k, offset, length)
  {
    hide Low, NewLength, ViewEnd, PageBase, Rounded, LowTruncated, PageAligned, Descending;
    var bound := Bound(bcbs, k, offset, length);
    if k > 0 { assert BcbOk(bcbs[k - 1]); }
    if Takes32(bcbs, offset) {
      AllBelowFirst(bcbs);
      LoopsAgreeIff(bcbs, offset, k, offset + length);
    }
    BoundIsAbove(bcbs, k, offset, length);
    Pages(offset);
    ViewIsAbove(offset);
    NewLengthIs(offset, bound);
    var end := PageBase(offset) + NewLength(offset, bound);
    if k > 0 && bcbs[k - 1].fileOffset < end { AlignedApart(bcbs[k - 1].fileOffset, end); }
    if k > 0 { AlignedApart(PageBase(offset), bcbs[k - 1].fileOffset); }
  }

  /** A new Bcb covers the offset if and only if its length does not come out as zero. It keeps the list in order
      and disjoint if and only if, besides, the search did not miss the next Bcb. */
  lemma NewBcbFitsIff(bcbs: seq<Bcb>, k: int, offset: int, length: int)
    requires ListOk(bcbs) && StopsAt(bcbs, offset, k) && 0 <= offset && 0 <= length < FOUR_GB
    requires forall i | 0 <= i < |bcbs| :: !bcbs[i].Covers(offset)
    ensures var bound := Bound(bcbs, k, offset, length);
            var b := NewBcb(offset, bound);
            && (b.Covers(offset) <==> !ComesOutEmpty(offset, bound))
            && (ListOk(Inserted(bcbs, k, b)) <==> !ComesOutEmpty(offset, bound) && !MissesNext(bcbs, k, offset, length))
  {
    hide Low, NewLength, Bound, MissesNext, PageAligned, PageBase, ComesOutEmpty;
    var b := NewBcb(offset, Bound(bcbs, k, offset, length));
    NewEnd(bcbs, k, offset, length);
    Pages(offset);
    if k < |bcbs| {
      assert BcbOk(bcbs[k]) && !bcbs[k].Covers(offset);
      EndsBelow(bcbs[k], offset);
    }
    forall i | 0 <= i < |bcbs| ensures bcbs[i].fileOffset < bcbs[i].beyondLastByte { assert BcbOk(bcbs[i]); }
    assert forall i | 0 <= i < |Inserted(bcbs, k, b)| ::
        Inserted(bcbs, k, b)[i] == if i < k then bcbs[i] else if i == k then b else bcbs[i - 1];
    if BcbOk(b) { InsertedAt(bcbs, k, b); }
    CoversNew(bcbs, k, offset, length);
  }

  lemma EndsBelow(b: Bcb, offset: int)
    requires BcbOk(b) && b.beyondLastByte <= offset
    ensures b.beyondLastByte <= PageBase(offset)
  {
    Pages(offset);
    var p :| b.fileOffset == PageStart(p);
    var q :| b.byteLength == PageStart(q);
    assert b.beyondLastByte == PageStart(p + q);
    if PageBase(offset) < b.beyondLastByte { AlignedApart(PageBase(offset), b.beyondLastByte); }
  }

  lemma CoversNew(bcbs: seq<Bcb>, k: int, offset: int, length: int)
    requires ListOk(bcbs) && StopsAt(bcbs, offset, k) && 0 <= offset && 0 <= length < FOUR_GB
    ensures var bound := Bound(bcbs, k, offset, length);
            NewBcb(offset, bound).Covers(offset) <==> !ComesOutEmpty(offset, bound)
  {
    hide NewLength, LowTruncated, Low;
    BoundIsAbove(bcbs, k, offset, length);
    NewLengthIs(offset, Bound(bcbs, k, offset, length));
    Pages(offset);
  }

  lemma OneBcb(b: Bcb, page: int)
    requires b == Bcb(PageStart(page), 4096, PageStart(page) + 4096, 1, false, 0, 0, true) && page >= 0
    ensures ListOk([b])
  {
    assert 4096 == PageStart(1);
  }

  /** It does happen: the range from 4 GB - 12 KB to 4 GB + 4 KB, with the page at 4 GB - 8 KB pinned. The new
      Bcb overlaps the pinned one. */
  lemma MissesNextExample()
    ensures var pinned, offset, length := Bcb(0xFFFF_E000, 4096, 0xFFFF_F000, 1, false, 0, 0, true), 0xFFFF_D000, 0x4000;
            && ListOk([pinned]) && StopsAt([pinned], offset, 1) && MissesNext([pinned], 1, offset, length)
            && !ListOk(Inserted([pinned], 1, NewBcb(offset, Bound([pinned], 1, offset, length))))
  {
    hide NewBcb, Bound, Inserted, Descending;
    var bcbs := [Bcb(0xFFFF_E000, 4096, 0xFFFF_F000, 1, false, 0, 0, true)];
    OneBcb(bcbs[0], 0xF_FFFE);
    NewBcbFitsIff(bcbs, 1, 0xFFFF_D000, 0x4000);
  }

  /** And so does the other: a request for 4 GB less one byte, on a stream without Bcbs, gets an empty Bcb. */
  lemma EmptyExample()
    ensures StopsAt([], 0, 0) && Bound([], 0, 0, 0xFFFF_FFFF) == 0xFFFF_FFFF && ComesOutEmpty(0, 0xFFFF_FFFF)
    ensures NewBcb(0, 0xFFFF_FFFF).byteLength == 0
  {
    NewLengthIs(0, 0xFFFF_FFFF);
  }

  // ----- Pinning, unpinning, dirtying ----------------------------------------------------------------

  function PagesOf(b: Bcb): int {
    if b.dirty then b.byteLength / 4096 else 0
  }

  function DirtyPagesOf(bcbs: seq<Bcb>): int {
    if bcbs == [] then 0 else PagesOf(bcbs[0]) + DirtyPagesOf(bcbs[1..])
  }

  lemma {:induction false} DirtyPagesUpdate(bcbs: seq<Bcb>, k: nat, b: Bcb)
    requires k < |bcbs|
    ensures DirtyPagesOf(bcbs[k := b]) == DirtyPagesOf(bcbs) - PagesOf(bcbs[k]) + PagesOf(b)
  {
    if k == 0 {
      assert bcbs[k := b][1..] == bcbs[1..];
    } else {
      DirtyPagesUpdate(bcbs[1..], k - 1, b);
      assert bcbs[k := b][1..] == bcbs[1..][k - 1 := b];
    }
  }

  lemma {:induction false} DirtyPagesInsert(bcbs: seq<Bcb>, k: nat, b: Bcb)
    requires k <= |bcbs|
    ensures DirtyPagesOf(Inserted(bcbs, k, b)) == DirtyPagesOf(bcbs) + PagesOf(b)
  {
    if k == 0 {
      assert Inserted(bcbs, k, b)[1..] == bcbs;
    } else {
      DirtyPagesInsert(bcbs[1..], k - 1, b);
      assert Inserted(bcbs, k, b)[1..] == Inserted(bcbs[1..], k - 1, b);
    }
  }

  lemma {:induction false} DirtyPagesNonNegative(bcbs: seq<Bcb>)
    requires EachOk(bcbs)
    ensures DirtyPagesOf(bcbs) >= 0 && forall i | 0 <= i < |bcbs| :: 0 <= PagesOf(bcbs[i]) <= DirtyPagesOf(bcbs)
  {
    if bcbs != [] {
      assert BcbOk(bcbs[0]);
      assert forall i | 1 <= i < |bcbs| :: bcbs[i] == bcbs[1..][i - 1];
      DirtyPagesNonNegative(bcbs[1..]);
    }
  }

  function Removed(bcbs: seq<Bcb>, k: int): seq<Bcb>
    requires 0 <= k < |bcbs|
  {
    bcbs[..k] + bcbs[k + 1..]
  }

  /** The end of CcUnpinFileDataEx: at pin count zero a dirty Bcb is unmapped and a clean one deleted. */
  function Dropped(bcbs: seq<Bcb>, k: int, b: Bcb): seq<Bcb>
    requires 0 <= k < |bcbs|
  {
    if b.pinCount != 0 then bcbs[k := b]
    else if b.dirty then bcbs[k := b.(mapped := false)]
    else Removed(bcbs, k)
  }

  /** The same place in the file. */
  predicate SamePlace(a: Bcb, b: Bcb) {
    a.fileOffset == b.fileOffset && a.byteLength == b.byteLength && a.beyondLastByte == b.beyondLastByte && LsnsOk(a)
  }

  lemma UpdateKeepsList(bcbs: seq<Bcb>, k: nat, b: Bcb)
    requires ListOk(bcbs) && k < |bcbs| && SamePlace(b, bcbs[k])
    ensures ListOk(bcbs[k := b])
    ensures InUse(bcbs) && (b.pinCount > 0 || (b.dirty && !b.mapped)) ==> InUse(bcbs[k := b])
  {
    var bcbs' := bcbs[k := b];
    assert forall i | 0 <= i < |bcbs| && i != k :: bcbs'[i] == bcbs[i];
    forall i | 0 <= i < |bcbs'| ensures BcbOk(bcbs'[i]) { assert BcbOk(bcbs[i]); }
  }

  lemma RemovalKeepsList(bcbs: seq<Bcb>, k: nat)
    requires ListOk(bcbs) && k < |bcbs|
    ensures ListOk(Removed(bcbs, k)) && (InUse(bcbs) ==> InUse(Removed(bcbs, k)))
  {
    var bcbs' := Removed(bcbs, k);
    assert forall i | 0 <= i < |bcbs'| :: bcbs'[i] == if i < k then bcbs[i] else bcbs[i + 1];
    forall i | 0 <= i < |bcbs'| ensures BcbOk(bcbs'[i]) { assert BcbOk(if i < k then bcbs[i] else bcbs[i + 1]); }
  }

  lemma PutBack(bcbs: seq<Bcb>, k: nat)
    requires k < |bcbs|
    ensures Inserted(Removed(bcbs, k), k, bcbs[k]) == bcbs
  {
    assert Removed(bcbs, k)[..k] == bcbs[..k] && Removed(bcbs, k)[k..] == bcbs[k + 1..];
  }

  lemma DirtyPagesRemoval(bcbs: seq<Bcb>, k: nat)
    requires k < |bcbs|
    ensures DirtyPagesOf(Removed(bcbs, k)) == DirtyPagesOf(bcbs) - PagesOf(bcbs[k])
  {
    hide DirtyPagesOf, PagesOf, Inserted;
    DirtyPagesInsert(Removed(bcbs, k), k, bcbs[k]);
    PutBack(bcbs, k);
  }

  lemma InsertionKeepsUse(bcbs: seq<Bcb>, k: nat, b: Bcb)
    requires InUse(bcbs) && k <= |bcbs| && b.pinCount > 0 && !b.dirty
    ensures InUse(Inserted(bcbs, k, b))
  {
    var bcbs' := Inserted(bcbs, k, b);
    assert forall i | 0 <= i < |bcbs'| :: bcbs'[i] == if i < k then bcbs[i] else if i == k then b else bcbs[i - 1];
  }

  lemma DropKeepsList(bcbs: seq<Bcb>, k: nat, b: Bcb)
    requires ListOk(bcbs) && k < |bcbs| && SamePlace(b, bcbs[k])
    ensures ListOk(Dropped(bcbs, k, b))
  {
    if b.pinCount != 0 {
      UpdateKeepsList(bcbs, k, b);
    } else if b.dirty {
      UpdateKeepsList(bcbs, k, b.(mapped := false));
    } else {
      RemovalKeepsList(bcbs, k);
    }
  }

  lemma DropKeepsUse(bcbs: seq<Bcb>, k: nat, b: Bcb)
    requires InUse(bcbs) && k < |bcbs|
    ensures InUse(Dropped(bcbs, k, b))
    ensures DirtyPagesOf(Dropped(bcbs, k, b)) == DirtyPagesOf(bcbs) - PagesOf(bcbs[k]) + PagesOf(b)
  {
    if b.pinCount != 0 {
      DirtyPagesUpdate(bcbs, k, b);
    } else if b.dirty {
      DirtyPagesUpdate(bcbs, k, b.(mapped := false));
    } else {
      DirtyPagesRemoval(bcbs, k);
    }
  }

  /** Whether it is mapped is nothing to the list. */
  lemma MappedKeepsList(bcbs: seq<Bcb>, k: nat, mapped: bool)
    requires k < |bcbs|
    ensures ListOk(bcbs[k := bcbs[k].(mapped := mapped)]) <==> ListOk(bcbs)
  {
    var now := bcbs[k := bcbs[k].(mapped := mapped)];
    if ListOk(bcbs) { LsnsAt(bcbs, k); UpdateKeepsList(bcbs, k, now[k]); }
    if ListOk(now) { LsnsAt(now, k); UpdateKeepsList(now, k, bcbs[k]); assert now[k := bcbs[k]] == bcbs; }
  }

  datatype UnmapAction = UNPIN | UNREF | SET_CLEAN

  /** What CcUnpinFileDataEx does to the Bcb itself. */
  function Released(b: Bcb, action: UnmapAction): Bcb
    requires action.SET_CLEAN? || b.pinCount > 0
  {
    if !action.SET_CLEAN? then b.(pinCount := b.pinCount - 1)
    else if b.dirty then b.(dirty := false, oldestLsn := 0, newestLsn := 0)
    else b
  }

  /** What CcSetDirtyPinnedData does to a Bcb. */
  function Dirtied(b: Bcb, lsn: Option<int>): Bcb {
    var b1 := if !b.dirty && lsn.Some? then b.(oldestLsn := lsn.value, newestLsn := lsn.value) else b;
    var b2 := b1.(dirty := true);
    if lsn.None? then b2
    else
      var b3 := if b2.oldestLsn == 0 || lsn.value < b2.oldestLsn then b2.(oldestLsn := lsn.value) else b2;
      if lsn.value > b3.newestLsn then b3.(newestLsn := lsn.value) else b3
  }

  /** A dirty Bcb's Lsns enclose every one it was set dirty with. */
  lemma DirtiedEncloses(b: Bcb, lsn: Option<int>)
    requires LsnsOk(b) && (lsn.Some? ==> lsn.value > 0)
    ensures var b' := Dirtied(b, lsn);
            && SamePlace(b', b) && b'.dirty && b'.pinCount == b.pinCount && b'.mapped == b.mapped
            && (lsn.Some? ==> 0 < b'.oldestLsn <= lsn.value <= b'.newestLsn)
            && (b.dirty && b.newestLsn > 0 ==> b'.oldestLsn <= b.oldestLsn && b.newestLsn <= b'.newestLsn)
            && (lsn.None? ==> b'.oldestLsn == b.oldestLsn && b'.newestLsn == b.newestLsn)
            && (lsn.Some? ==> b'.oldestLsn == lsn.value || (b.dirty && b'.oldestLsn == b.oldestLsn))
            && (lsn.Some? ==> b'.newestLsn == lsn.value || (b.dirty && b'.newestLsn == b.newestLsn))
  {
  }

  datatype PinRequest = PinRequest(offset: int, length: int, readOnly: bool, wait: bool, ifBcb: bool, noRead: bool, exclusive: bool)

  /** How the first section under the lock ends: a Bcb is pinned, FALSE is to be returned, or an allocation
      failed and is to be raised. */
  datatype PinStep = Pinned(k: nat) | Refused | OutOfMemory

  datatype PinResult = Success(k: nat) | NotPinned | Raised

  predicate Covered(bcbs: seq<Bcb>, offset: int) {
    exists i | 0 <= i < |bcbs| :: bcbs[i].Covers(offset)
  }

  /** The Bcb that covers the offset has its data mapped. */
  predicate CoveredMapped(bcbs: seq<Bcb>, offset: int) {
    exists i | 0 <= i < |bcbs| :: bcbs[i].Covers(offset) && bcbs[i].mapped
  }

  lemma CoversOnce(bcbs: seq<Bcb>, offset: int, k: nat)
    requires ListOk(bcbs) && StopsAt(bcbs, offset, k) && Covered(bcbs, offset)
    ensures k < |bcbs| && (CoveredMapped(bcbs, offset) <==> bcbs[k].mapped)
  {
    CoveredWhereItStops(bcbs, offset, k);
    forall i | 0 <= i < |bcbs| && i != k ensures !bcbs[i].Covers(offset) {
      if i > k { assert bcbs[i].beyondLastByte <= bcbs[k].fileOffset; }
    }
  }

  /** A new Bcb at `k` would be in order, and cover something. */
  predicate Fits(bcbs: seq<Bcb>, k: int, r: PinRequest)
    requires 0 <= k <= |bcbs|
  {
    !MissesNext(bcbs, k, r.offset, r.length) && !ComesOutEmpty(r.offset, Bound(bcbs, k, r.offset, r.length))
  }

  /** The request finds its Bcb, or fits. */
  predicate Sound(bcbs: seq<Bcb>, r: PinRequest) {
    Covered(bcbs, r.offset) || forall k | 0 <= k <= |bcbs| && StopsAt(bcbs, r.offset, k) :: Fits(bcbs, k, r)
  }

  /** The list after one more pin of entry `k`, or with the new Bcb at `k`. */
  function AfterPin(bcbs: seq<Bcb>, r: PinRequest, k: nat): seq<Bcb>
    requires k <= |bcbs| && (k == |bcbs| ==> !Covered(bcbs, r.offset))
  {
    if Covered(bcbs, r.offset) then bcbs[k := bcbs[k].(pinCount := bcbs[k].pinCount + 1)]
    else Inserted(bcbs, k, NewBcb(r.offset, Bound(bcbs, k, r.offset, r.length)))
  }

  lemma PinKeepsList(bcbs: seq<Bcb>, r: PinRequest, k: nat)
    requires ListOk(bcbs) && InUse(bcbs) && StopsAt(bcbs, r.offset, k)
    requires 0 <= r.offset && 0 <= r.length < FOUR_GB
    requires Covered(bcbs, r.offset) ==> k < |bcbs| && bcbs[k].Covers(r.offset)
    ensures var now := AfterPin(bcbs, r, k);
            && k < |now| && InUse(now) && DirtyPagesOf(now) == DirtyPagesOf(bcbs)
            && (now[k].Covers(r.offset) <==>
                  Covered(bcbs, r.offset) || !ComesOutEmpty(r.offset, Bound(bcbs, k, r.offset, r.length)))
            && (ListOk(now) <==> Covered(bcbs, r.offset) || Fits(bcbs, k, r))
  {
    hide ListOk, NewBcb, Bound, MissesNext, DirtyPagesOf, ComesOutEmpty;
    if Covered(bcbs, r.offset) {
      var b := bcbs[k].(pinCount := bcbs[k].pinCount + 1);
      LsnsAt(bcbs, k);
      UpdateKeepsList(bcbs, k, b);
      DirtyPagesUpdate(bcbs, k, b);
    } else {
      NewBcbFitsIff(bcbs, k, r.offset, r.length);
      IsNew(r.offset, Bound(bcbs, k, r.offset, r.length));
      InsertionKeepsUse(bcbs, k, NewBcb(r.offset, Bound(bcbs, k, r.offset, r.length)));
      DirtyPagesInsert(bcbs, k, NewBcb(r.offset, Bound(bcbs, k, r.offset, r.length)));
    }
  }

  lemma DirtyCountNonNegative(bcbs: seq<Bcb>)
    requires ListOk(bcbs)
    ensures DirtyPagesOf(bcbs) >= 0
  {
    DirtyPagesNonNegative(bcbs);
  }

  lemma WasMapped(bcbs: seq<Bcb>, r: PinRequest, k: nat)
    requires ListOk(bcbs) && StopsAt(bcbs, r.offset, k) && (Covered(bcbs, r.offset) ==> k < |bcbs|)
    ensures k < |AfterPin(bcbs, r, k)| && (AfterPin(bcbs, r, k)[k].mapped <==> CoveredMapped(bcbs, r.offset))
    ensures CoveredMapped(bcbs, r.offset) ==> Covered(bcbs, r.offset)
  {
    if Covered(bcbs, r.offset) { CoversOnce(bcbs, r.offset, k); }
  }

  lemma PinCounted(bcbs: seq<Bcb>, r: PinRequest, k: nat)
    requires k <= |bcbs| && (k == |bcbs| ==> !Covered(bcbs, r.offset))
    ensures k < |AfterPin(bcbs, r, k)| && AfterPin(bcbs, r, k)[k].pinCount > 0
  {
  }

  /** Unpinning takes back what pinning did. */
  lemma UnpinRestores(bcbs: seq<Bcb>, r: PinRequest, k: nat)
    requires InUse(bcbs) && k <= |bcbs| && (k == |bcbs| ==> !Covered(bcbs, r.offset))
    ensures var now := AfterPin(bcbs, r, k);
            && k < |now| && now[k].pinCount > 0
            && Dropped(now, k, Released(now[k], UNPIN)) == bcbs && PagesOf(Released(now[k], UNPIN)) == PagesOf(now[k])
  {
    var now := AfterPin(bcbs, r, k);
    if Covered(bcbs, r.offset) {
      assert Dropped(now, k, Released(now[k], UNPIN)) == bcbs;
    } else {
      assert Removed(now, k) == bcbs;
    }
  }

  lemma IsNew(offset: int, bound: int)
    ensures NewBcb(offset, bound).pinCount == 1 && !NewBcb(offset, bound).dirty && !NewBcb(offset, bound).mapped
  {
  }

  lemma LsnsAt(bcbs: seq<Bcb>, k: nat)
    requires ListOk(bcbs) && k < |bcbs|
    ensures LsnsOk(bcbs[k])
  {
    assert BcbOk(bcbs[k]);
  }

  class BcbStream {
    const cc: Globals
    const metadata: bool                          // MODIFIED_WRITE_DISABLED
    const writeBehind: bool                       // DISABLE_WRITE_BEHIND is off
    var bcbs: seq<Bcb>
    var dirtyPages: int
    var openCount: nat
    var onDirtyList: bool
    var validDataGoal: int
    var beyondLastFlush: int
    var pagesToWrite: nat
    ghost var otherPages: nat                     // charged for the mask and the active page

    ghost predicate Counted()
      reads this
    {
      dirtyPages == DirtyPagesOf(bcbs) + otherPages && (writeBehind && dirtyPages > 0 ==> onDirtyList)
    }

    /** What holds even if a pin has spoilt the order of the list. */
    ghost predicate Sane()
      reads this
    {
      InUse(bcbs) && Counted()
    }

    ghost predicate Valid()
      reads this
    {
      ListOk(bcbs) && Sane()
    }

    constructor (cc: Globals, metadata: bool, writeBehind: bool)
      ensures Valid() && bcbs == [] && this.cc == cc && this.metadata == metadata && this.writeBehind == writeBehind
    {
      this.cc, this.metadata, this.writeBehind := cc, metadata, writeBehind;
      bcbs, dirtyPages, openCount, onDirtyList, validDataGoal, otherPages := [], 0, 1, false, 0, 0;
      beyondLastFlush, pagesToWrite := 0, 0;
    }

    /** CcPinFileData up to where it releases the lock for the first time. `grant` is whether the resource can
        be had without waiting, `memory` whether the pool has a Bcb. */
    method FindOrAllocate(r: PinRequest, grant: bool, memory: bool) returns (step: PinStep)
      requires Valid() && 0 <= r.offset && 0 <= r.length < FOUR_GB
      modifies this`bcbs
      ensures step.Pinned? <==> if Covered(old(bcbs), r.offset) then r.wait || r.readOnly || !metadata || grant
                                else !r.ifBcb && memory
      ensures step.OutOfMemory? <==> !Covered(old(bcbs), r.offset) && !r.ifBcb && !memory && r.wait
      ensures !step.Pinned? ==> bcbs == old(bcbs)
      ensures step.Pinned? ==> StopsAt(old(bcbs), r.offset, step.k) && (Covered(old(bcbs), r.offset) ==> step.k < |old(bcbs)|)
      ensures step.Pinned? ==> bcbs == AfterPin(old(bcbs), r, step.k) && step.k < |bcbs|
      ensures step.Pinned? ==>
                (bcbs[step.k].Covers(r.offset) <==>
                   Covered(old(bcbs), r.offset) || !ComesOutEmpty(r.offset, Bound(old(bcbs), step.k, r.offset, r.length)))
      ensures Sane() && (Valid() <==> !step.Pinned? || Covered(old(bcbs), r.offset) || Fits(old(bcbs), step.k, r))
    {
      hide ListOk, InUse, DirtyPagesOf, NewBcb, MissesNext, ComesOutEmpty;
      var found, k, bound := FindBcb(bcbs, r.offset, r.offset + r.length);
      PinKeepsList(bcbs, r, k);
      if !found {
        if r.ifBcb {
          return Refused;
        }
        if !memory {
          return if r.wait then OutOfMemory else Refused;
        }
        bcbs := Inserted(bcbs, k, NewBcb(r.offset, bound));
      } else {
        if !r.wait && !(r.readOnly || !metadata) && !grant {
          return Refused;
        }
        bcbs := bcbs[k := bcbs[k].(pinCount := bcbs[k].pinCount + 1)];
      }
      step := Pinned(k);
    }

    /** CcUnpinFileDataEx, for a Bcb. */
    method UnpinFileData(k: nat, action: UnmapAction)
      requires Sane() && k < |bcbs| && (if action.SET_CLEAN? then ListOk(bcbs) else bcbs[k].pinCount > 0)
      modifies this`bcbs, this`dirtyPages, this`onDirtyList, cc
      ensures Sane() && bcbs == Dropped(old(bcbs), k, Released(old(bcbs)[k], action))
      ensures old(Valid()) ==> Valid()
      ensures var pages := if action.SET_CLEAN? then PagesOf(old(bcbs)[k]) else 0;
              && dirtyPages == old(dirtyPages) - pages && cc.totalDirtyPages == old(cc.totalDirtyPages) - pages
              && cc.pagesYetToWrite == Less(old(cc.pagesYetToWrite), pages)
      ensures onDirtyList <==> old(onDirtyList) && !(action.SET_CLEAN? && old(bcbs)[k].dirty && dirtyPages == 0 && openCount != 0)
    {
      hide ListOk, InUse, DirtyPagesOf, Dropped;
      var b := Released(bcbs[k], action);
      DropKeepsUse(bcbs, k, b);
      if ListOk(bcbs) {
        LsnsAt(bcbs, k);
        DropKeepsList(bcbs, k, b);
        DirtyPagesAreCounted(bcbs, k);
      }
      if action.SET_CLEAN? && bcbs[k].dirty {
        var pages := bcbs[k].byteLength / 4096;
        cc.totalDirtyPages, dirtyPages := cc.totalDirtyPages - pages, dirtyPages - pages;
        cc.pagesYetToWrite := Less(cc.pagesYetToWrite, pages);
        if dirtyPages == 0 && openCount != 0 {
          onDirtyList := false;
        }
      }
      bcbs := Dropped(bcbs, k, b);
    }

    method SetMapped(k: nat, mapped: bool)
      requires Sane() && k < |bcbs| && bcbs[k].pinCount > 0
      modifies this`bcbs
      ensures Sane() && bcbs == old(bcbs)[k := old(bcbs)[k].(mapped := mapped)]
      ensures old(Valid()) <==> Valid()
    {
      hide ListOk, DirtyPagesOf;
      MappedKeepsList(bcbs, k, mapped);
      DirtyPagesUpdate(bcbs, k, bcbs[k].(mapped := mapped));
      bcbs := bcbs[k := bcbs[k].(mapped := mapped)];
    }

    /** CcPinFileData with nobody in between. `read` is whether CcMapAndRead brings the data in. What the
        caller gets has one pin more, or is new with one pin. A call that fails leaves the list as it was; one
        that succeeds keeps it in order if and only if the Bcb was there or the new one fits. */
    method PinFileData(r: PinRequest, grant: bool, memory: bool, read: bool) returns (result: PinResult)
      requires Valid() && 0 <= r.offset && 0 <= r.length < FOUR_GB && (r.noRead ==> r.wait)
      modifies this`bcbs, this`dirtyPages, this`onDirtyList, cc
      ensures Sane() && dirtyPages == old(dirtyPages) && cc.totalDirtyPages == old(cc.totalDirtyPages)
      ensures onDirtyList == old(onDirtyList)
      ensures !result.Success? ==> bcbs == old(bcbs)
      ensures result.Success? <==>
                (if Covered(old(bcbs), r.offset) then r.wait || r.readOnly || !metadata || grant else !r.ifBcb && memory) &&
                (r.noRead || read || CoveredMapped(old(bcbs), r.offset))
      ensures result.Raised? <==>
                r.wait && if Covered(old(bcbs), r.offset) then !r.noRead && !read && !CoveredMapped(old(bcbs), r.offset)
                          else !r.ifBcb && (!memory || (!r.noRead && !read))
      ensures result.NotPinned? <==> (!result.Success? && !r.wait) || (r.ifBcb && !Covered(old(bcbs), r.offset))
      ensures result.Success? ==> StopsAt(old(bcbs), r.offset, result.k) && result.k < |bcbs|
      ensures result.Success? ==> (Covered(old(bcbs), r.offset) ==> result.k < |old(bcbs)|)
      ensures result.Success? ==>
                (bcbs[result.k].Covers(r.offset) <==>
                   Covered(old(bcbs), r.offset) || !ComesOutEmpty(r.offset, Bound(old(bcbs), result.k, r.offset, r.length)))
      ensures Valid() <==> !result.Success? || Covered(old(bcbs), r.offset) || Fits(old(bcbs), result.k, r)
      ensures result.Success? ==>
                var now := AfterPin(old(bcbs), r, result.k);
                |now| == |bcbs| && bcbs == now[result.k := now[result.k].(mapped := bcbs[result.k].mapped)]
      ensures result.Success? ==>
                (bcbs[result.k].mapped <==> if r.noRead then CoveredMapped(old(bcbs), r.offset) && !r.exclusive else true)
    {
      hide ListOk, InUse, DirtyPagesOf, NewBcb, Bound, Fits, Covered, CoveredMapped, ComesOutEmpty;
      var step := FindOrAllocate(r, grant, memory);
      if !step.Pinned? {
        return if step.OutOfMemory? then Raised else NotPinned;
      }
      var k := step.k;
      PinCounted(old(bcbs), r, k);
      WasMapped(old(bcbs), r, k);
      if !bcbs[k].mapped && !r.noRead {
        if !read {
          UnpinRestores(old(bcbs), r, k);
          UnpinFileData(k, UNPIN);
          return if r.wait then Raised else NotPinned;
        }
        SetMapped(k, true);
      }
      if r.noRead && r.exclusive && bcbs[k].mapped {
        SetMapped(k, false);
      }
      result := Success(k);
    }

    /** CcDeleteBcbs: nothing is pinned any more, and the counters give back what was dirty. */
    method DeleteBcbs()
      requires Valid() && forall i | 0 <= i < |bcbs| :: bcbs[i].pinCount == 0
      modifies this`bcbs, this`dirtyPages, cc`totalDirtyPages
      ensures Valid() && bcbs == [] && dirtyPages == otherPages
      ensures cc.totalDirtyPages == old(cc.totalDirtyPages) - DirtyPagesOf(old(bcbs))
    {
      while bcbs != []
        invariant Valid()
        invariant cc.totalDirtyPages - DirtyPagesOf(bcbs) == old(cc.totalDirtyPages) - DirtyPagesOf(old(bcbs))
        decreases |bcbs|
      {
        hide ListOk, InUse;
        var b := bcbs[0];
        DirtyPagesAreCounted(bcbs, 0);
        RemovalKeepsList(bcbs, 0);
        assert Removed(bcbs, 0) == bcbs[1..];
        bcbs := bcbs[1..];
        if b.dirty {
          cc.totalDirtyPages, dirtyPages := cc.totalDirtyPages - b.byteLength / 4096, dirtyPages - b.byteLength / 4096;
        }
        DirtyCountNonNegative(bcbs);
      }
    }

    /** CcSetDirtyPinnedData, on one Bcb or on the vector of an overlap Bcb. */
    method SetDirtyPinnedData(ks: seq<nat>, lsn: Option<int>)
      requires Valid() && (lsn.Some? ==> lsn.value > 0) && forall i | 0 <= i < |ks| :: ks[i] < |bcbs|
      modifies this`bcbs, this`dirtyPages, this`onDirtyList, this`validDataGoal, cc`totalDirtyPages
      ensures Valid() && |bcbs| == |old(bcbs)| && bcbs == DirtiedAll(old(bcbs), ks, lsn)
      ensures dirtyPages - old(dirtyPages) == cc.totalDirtyPages - old(cc.totalDirtyPages)
      ensures forall i | 0 <= i < |ks| :: bcbs[ks[i]].beyondLastByte <= validDataGoal
      ensures old(validDataGoal) <= validDataGoal
    {
      hide ListOk, InUse, DirtyPagesOf, Dirtied;
      var i := 0;
      while i < |ks|
        invariant 0 <= i <= |ks| && Valid() && |bcbs| == |old(bcbs)| && bcbs == DirtiedAll(old(bcbs), ks[..i], lsn)
        invariant dirtyPages - old(dirtyPages) == cc.totalDirtyPages - old(cc.totalDirtyPages)
        invariant forall j | 0 <= j < i :: bcbs[ks[j]].beyondLastByte <= validDataGoal
        invariant old(validDataGoal) <= validDataGoal
      {
        SetDirtyOne(ks[i], lsn);
        assert ks[..i + 1][..i] == ks[..i];
        i := i + 1;
      }
      assert ks[..i] == ks;
    }

    method SetDirtyOne(k: nat, lsn: Option<int>)
      requires Valid() && (lsn.Some? ==> lsn.value > 0) && k < |bcbs|
      modifies this`bcbs, this`dirtyPages, this`onDirtyList, this`validDataGoal, cc`totalDirtyPages
      ensures Valid() && bcbs == old(bcbs)[k := Dirtied(old(bcbs)[k], lsn)]
      ensures dirtyPages - old(dirtyPages) == cc.totalDirtyPages - old(cc.totalDirtyPages)
      ensures forall j | 0 <= j < |bcbs| :: bcbs[j].beyondLastByte == old(bcbs)[j].beyondLastByte
      ensures onDirtyList <==> old(onDirtyList) || (!old(bcbs)[k].dirty && old(dirtyPages) == 0 && writeBehind)
      ensures validDataGoal == if bcbs[k].beyondLastByte > old(validDataGoal) then bcbs[k].beyondLastByte else old(validDataGoal)
    {
      hide ListOk, DirtyPagesOf, Dirtied;
      LsnsAt(bcbs, k);
      DirtiedEncloses(bcbs[k], lsn);
      DirtyPagesAreCounted(bcbs, k);
      if !bcbs[k].dirty {
        if dirtyPages == 0 && writeBehind {
          onDirtyList := true;
        }
        var pages := bcbs[k].byteLength / 4096;
        cc.totalDirtyPages, dirtyPages := cc.totalDirtyPages + pages, dirtyPages + pages;
      }
      var b := Dirtied(bcbs[k], lsn);
      UpdateKeepsList(bcbs, k, b);
      DirtyPagesUpdate(bcbs, k, b);
      bcbs := bcbs[k := b];
      if b.beyondLastByte > validDataGoal {
        validDataGoal := b.beyondLastByte;
      }
    }
  }

  lemma DirtyPagesAreCounted(bcbs: seq<Bcb>, k: nat)
    requires ListOk(bcbs) && k < |bcbs|
    ensures 0 <= PagesOf(bcbs[k]) <= DirtyPagesOf(bcbs) && bcbs[k].byteLength / 4096 > 0
  {
    DirtyPagesNonNegative(bcbs);
    assert BcbOk(bcbs[k]);
    var q :| bcbs[k].byteLength == PageStart(q);
  }

  function DirtiedAll(bcbs: seq<Bcb>, ks: seq<nat>, lsn: Option<int>): (now: seq<Bcb>)
    requires forall i | 0 <= i < |ks| :: ks[i] < |bcbs|
    ensures |now| == |bcbs|
    decreases |ks|
  {
    if ks == [] then bcbs
    else
      var first, last := ks[..|ks| - 1], ks[|ks| - 1];
      var before := DirtiedAll(bcbs, first, lsn);
      before[last := Dirtied(before[last], lsn)]
  }

  /** Exactly the Bcbs named are dirty that were not, and everything else about the others stays. */
  lemma {:induction false} DirtiedAllIs(bcbs: seq<Bcb>, ks: seq<nat>, lsn: Option<int>, j: nat)
    requires (forall i | 0 <= i < |ks| :: ks[i] < |bcbs|) && j < |bcbs| && LsnsOk(bcbs[j])
    requires lsn.Some? ==> lsn.value > 0
    ensures var b := DirtiedAll(bcbs, ks, lsn)[j];
            if j in ks then SamePlace(b, bcbs[j]) && b.dirty && b.pinCount == bcbs[j].pinCount &&
                            (lsn.Some? ==> 0 < b.oldestLsn <= lsn.value <= b.newestLsn)
            else b == bcbs[j]
    decreases |ks|
  {
    if ks != [] {
      var first, last := ks[..|ks| - 1], ks[|ks| - 1];
      DirtiedAllIs(bcbs, first, lsn, j);
      assert ks == first + [last];
      if last == j { DirtiedEncloses(DirtiedAll(bcbs, first, lsn)[j], lsn); }
    }
  }
}
