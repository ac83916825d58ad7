/**
 CcMapAndCopy: the loop over views and the loop over pages that copy a caller's bytes into the cache, and what
 they do so that every page touched gets written. A view gives access to the bytes up to its end.
 */
module MapAndCopy {
  const MAX_DIRTY_WRITE := 0x1_0000                // CcMaxDirtyWrite

  type Byte = int

  /** `data` with `bytes` copied to offset `at`. */
  function Copied(data: seq<Byte>, at: nat, bytes: seq<Byte>): (r: seq<Byte>)
    requires at + |bytes| <= |data|
    ensures |r| == |data|
  {
    data[..at] + bytes + data[at + |bytes|..]
  }

  lemma CopiedMore(data: seq<Byte>, at: nat, bytes: seq<Byte>, from: nat, to: nat)
    requires from <= to <= |bytes| && at + |bytes| <= |data|
    ensures Copied(Copied(data, at, bytes[..from]), at + from, bytes[from..to]) == Copied(data, at, bytes[..to])
  {
    var half := Copied(data, at, bytes[..from]);
    assert bytes[..from] + bytes[from..to] == bytes[..to];
    assert half[..at + from] == data[..at] + bytes[..from];
    assert half[at + to..] == data[at + to..];
  }

  /** The end of the view that `offset` lies in. */
  function ViewEnd(offset: int): int {
    offset - offset % 0x4_0000 + 0x4_0000
  }

  /** The pages of a byte range. */
  predicate InPages(p: int, offset: int, length: int) {
    length > 0 && offset / 4096 <= p <= (offset + length - 1) / 4096
  }

  function PagesFrom(first: int, last: int): (pages: set<int>)
    ensures forall p :: p in pages <==> first <= p <= last
    decreases last - first
  {
    if last < first then {} else PagesFrom(first, last - 1) + {last}
  }

  function PageNumber(offset: int): int { offset / 4096 }

  predicate OnPageBound(offset: int) { offset % 4096 == 0 }

  /** Views end on page bounds. */
  lemma ViewEndsOnPage(offset: int)
    ensures ViewEnd(offset) == 4096 * (64 * (offset / 0x4_0000) + 64) && offset < ViewEnd(offset) && OnPageBound(ViewEnd(offset))
  {
  }

  lemma ViewIsAbove(offset: int)
    ensures offset < ViewEnd(offset) && OnPageBound(ViewEnd(offset))
  {
    ViewEndsOnPage(offset);
  }

  lemma LastPage(local: nat, mapped: nat, page: int, received: int)
    requires 4096 * page + received == local + mapped && 0 < received <= 4096
    ensures (local + mapped - 1) / 4096 == page
  {
  }

  lemma EndsInPage(local: nat, mapped: nat, page: int, received: int)
    requires 4096 * page + received == local + mapped && 0 < received <= 4096
    ensures (local + mapped) % 4096 == 0 <==> received == 4096
    ensures received < 4096 ==> (local + mapped) / 4096 == page
  {
  }

  /** A small write that does not end on a page bound is to save its last page. */
  predicate IsSaved(user: seq<Byte>, offset: nat, writeThrough: bool) {
    0 < |user| <= 2048 && !writeThrough && (offset + |user|) % 4096 != 0
  }

  /** More than MAX_DIRTY_WRITE bytes of the write lie beyond the view that the page is in. */
  predicate FarFromEnd(p: int, end: int) {
    end - ViewEnd(4096 * p) > 0x1_0000
  }

  lemma InView(x: int, view: int)
    requires 0x4_0000 * view <= x < 0x4_0000 * view + 0x4_0000
    ensures x / 0x4_0000 == view && ViewEnd(x) == 0x4_0000 * view + 0x4_0000
  {
  }

  lemma ViewOfPage(local: nat, mapped: nat, p: int)
    requires InPages(p, local, mapped) && local + mapped <= ViewEnd(local)
    ensures ViewEnd(4096 * p) == ViewEnd(local)
  {
    var view := local / 0x4_0000;
    InView(local, view);
    FirstOfPage(local, view, local / 4096);
    assert 4096 * p <= local + mapped - 1;
    InView(4096 * p, view);
  }

  lemma FirstOfPage(local: nat, view: int, page: int)
    requires 0x4_0000 * view <= local && page == local / 4096
    ensures 0x4_0000 * view <= 4096 * page
  {
    assert 64 * view <= page;
  }

  /** The pages written out so far: of the first `copied` bytes, those far from the end of the write. */
  ghost predicate FlushedIs(flushed: set<int>, offset: int, copied: int, end: int) {
    forall p :: p in flushed <==> InPages(p, offset, copied) && FarFromEnd(p, end)
  }

  lemma NothingFlushed(offset: int, end: int)
    ensures FlushedIs({}, offset, 0, end)
  {
  }

  /** One more view is flushed exactly if more than MAX_DIRTY_WRITE bytes are left behind it. */
  lemma FlushedMore(was: set<int>, flushed: set<int>, offset: nat, first: nat, local: nat, mapped: nat, end: int)
    requires FlushedIs(was, offset, first, end) && local == offset + first && mapped > 0
    requires local + mapped <= ViewEnd(local) && (first > 0 ==> OnPageBound(local))
    requires local + mapped == ViewEnd(local) || local + mapped == end
    requires forall p :: p in flushed <==> p in was || (end - (local + mapped) > 0x1_0000 && InPages(p, local, mapped))
    ensures FlushedIs(flushed, offset, first + mapped, end)
  {
    forall p ensures p in flushed <==> InPages(p, offset, first + mapped) && FarFromEnd(p, end) {
      assert InPages(p, offset, first + mapped) <==> InPages(p, offset, first) || InPages(p, local, mapped);
      if InPages(p, local, mapped) { ViewOfPage(local, mapped, p); }
    }
  }

  /** Only pages of the write are marked anew. */
  ghost predicate NewWithin(now: set<int>, was: set<int>, offset: int, total: int) {
    forall p | p in now && p !in was :: InPages(p, offset, total)
  }

  lemma NewMore(now: set<int>, mid: set<int>, was: set<int>, offset: nat, total: nat, local: nat, mapped: nat)
    requires NewWithin(mid, was, offset, total) && NewWithin(now, mid, local, mapped)
    requires mapped > 0 && offset <= local && local + mapped <= offset + total
    ensures NewWithin(now, was, offset, total)
  {
    Within(offset, local - offset, local, mapped, total);
  }

  lemma Within(offset: nat, first: nat, local: nat, mapped: nat, total: nat)
    requires local == offset + first && mapped > 0 && first + mapped <= total
    ensures forall p | InPages(p, local, mapped) :: InPages(p, offset, total)
  {
  }

  datatype Outcome = Done | WouldBlock | Raised

  /** What Mm answers to the copy into a page: it goes through, or must wait for the page, or faults after `part`
      bytes. */
  datatype Answer = Fine | Absent | Faults(part: nat)

  /** What Mm answers in a call: for each page, to the flush of each view, and to that of the whole range. */
  datatype Mm = Mm(page: int -> Answer, view: int -> bool, whole: bool)

  predicate Passes(answer: Answer, wait: bool) {
    answer.Fine? || (answer.Absent? && wait)
  }

  /** Nothing on the way: each page lets the copy pass, and each view far from the end is flushed. */
  ghost predicate Clear(mm: Mm, offset: int, length: int, end: int, wait: bool) {
    forall p | InPages(p, offset, length) :: Passes(mm.page(p), wait) && (FarFromEnd(p, end) ==> mm.view(ViewEnd(4096 * p)))
  }

  ghost predicate SomeAbsent(mm: Mm, offset: int, length: int) {
    exists p :: InPages(p, offset, length) && mm.page(p).Absent?
  }

  /** Some page faults, or some view that is far from the end is not flushed. */
  ghost predicate SomeFault(mm: Mm, offset: int, length: int, end: int) {
    exists p :: InPages(p, offset, length) && (mm.page(p).Faults? || (FarFromEnd(p, end) && !mm.view(ViewEnd(4096 * p))))
  }

  ghost predicate PassedTo(mm: Mm, first: int, beyond: int, wait: bool) {
    forall p | first <= p < beyond :: Passes(mm.page(p), wait)
  }

  ghost predicate ReasonIs(outcome: Outcome, mm: Mm, offset: int, length: int, end: int, wait: bool) {
    match outcome
    case Done => Clear(mm, offset, length, end, wait)
    case WouldBlock => !wait && SomeAbsent(mm, offset, length)
    case Raised => SomeFault(mm, offset, length, end)
  }

  /** A view's pages are one after the other, and are all as far from the end as the view. */
  lemma ReasonInView(mm: Mm, local: nat, mapped: nat, end: int, wait: bool, page: int)
    requires mapped > 0 && local + mapped <= ViewEnd(local) && InPages(page, local, mapped)
    ensures PassedTo(mm, local / 4096, PageNumber(local + mapped - 1) + 1, wait) ==>
              (end - ViewEnd(local) <= 0x1_0000 || mm.view(ViewEnd(local))) ==> ReasonIs(Done, mm, local, mapped, end, wait)
    ensures !wait && mm.page(page).Absent? ==> ReasonIs(WouldBlock, mm, local, mapped, end, wait)
    ensures mm.page(page).Faults? || (end - ViewEnd(local) > 0x1_0000 && !mm.view(ViewEnd(local))) ==>
              ReasonIs(Raised, mm, local, mapped, end, wait)
  {
    forall p | InPages(p, local, mapped) ensures ViewEnd(4096 * p) == ViewEnd(local) {
      ViewOfPage(local, mapped, p);
    }
  }

  ghost predicate StopsAt(outcome: Outcome, mm: Mm, local: int, mapped: int, wait: bool, page: int) {
    InPages(page, local, mapped) && if outcome.WouldBlock? then !wait && mm.page(page).Absent? else outcome.Raised? && mm.page(page).Faults?
  }

  lemma NonePassed(mm: Mm, page: int, wait: bool)
    ensures PassedTo(mm, page, page, wait)
  {
  }

  lemma PagePasses(mm: Mm, local: nat, mapped: nat, page: int, received: int, wait: bool, outcome: Outcome)
    requires 4096 * page + received == local + mapped && 0 < received && local / 4096 <= page && mapped > 0
    requires PassedTo(mm, local / 4096, page, wait)
    requires outcome == if Passes(mm.page(page), wait) then Done else if mm.page(page).Absent? then WouldBlock else Raised
    ensures if outcome.Done? then PassedTo(mm, local / 4096, page + 1, wait) else StopsAt(outcome, mm, local, mapped, wait, page)
    ensures received <= 4096 ==> PageNumber(local + mapped - 1) == page
  {
    PageIsIn(local, mapped, page, received);
  }

  lemma PageIsIn(local: nat, mapped: nat, page: int, received: int)
    requires 4096 * page + received == local + mapped && 0 < received && local / 4096 <= page
    ensures mapped > 0 ==> InPages(page, local, mapped)
  {
  }

  /** What holds of the write so far, and of one more view, holds of both. */
  lemma ReasonMore(mm: Mm, offset: nat, first: nat, local: nat, mapped: nat, total: nat, wait: bool, outcome: Outcome)
    requires Clear(mm, offset, first, offset + total, wait) && local == offset + first && mapped > 0 && first + mapped <= total
    requires ReasonIs(outcome, mm, local, mapped, offset + total, wait)
    ensures ReasonIs(outcome, mm, offset, if outcome.Done? then first + mapped else total, offset + total, wait)
  {
    Within(offset, first, local, mapped, total);
    match outcome
    case Done =>
      forall p | InPages(p, offset, first + mapped) ensures InPages(p, offset, first) || InPages(p, local, mapped) {
      }
    case WouldBlock =>
      var p :| InPages(p, local, mapped) && mm.page(p).Absent?;
      assert InPages(p, offset, total);
    case Raised =>
      var p :| InPages(p, local, mapped) && (mm.page(p).Faults? || (FarFromEnd(p, offset + total) && !mm.view(ViewEnd(4096 * p))));
      assert InPages(p, offset, total);
  }

  lemma NothingOnTheWay(mm: Mm, offset: nat, total: nat, wait: bool)
    ensures Clear(mm, offset, 0, offset + total, wait)
  {
  }

  lemma OneReason(mm: Mm, offset: nat, total: nat, wait: bool)
    ensures SomeFault(mm, offset, total, offset + total) || (!wait && SomeAbsent(mm, offset, total)) <==>
              !Clear(mm, offset, total, offset + total, wait)
  {
  }

  class CachedFile {
    var data: seq<Byte>                           // the section's bytes, as seen through the views
    var marked: set<int>                          // pages set in the mask
    var flushed: set<int>                         // pages written out by this call, after it copied to them
    var unmarked: set<int>                        // pages that this call could not mark
    var hasActive: bool                           // ActiveVacb
    var activePage: int
    var activeIsDirty: bool                       // ACTIVE_PAGE_IS_DIRTY

    /** The page will be written, or has been, or marking it failed. */
    predicate Tracked(p: int)
      reads this`marked, this`flushed, this`unmarked, this`hasActive, this`activePage, this`activeIsDirty
    {
      p in marked || p in flushed || p in unmarked || (hasActive && activeIsDirty && activePage == p)
    }

    /** CcSetDirtyInMask: all of the pages or, without the memory that it needs, none. */
    method SetDirtyInMask(offset: nat, length: nat)
      requires length > 0
      modifies this`marked, this`unmarked
      ensures old(marked) <= marked && old(unmarked) <= unmarked
      ensures || ((forall p :: p in marked <==> p in old(marked) || InPages(p, offset, length)) && unmarked == old(unmarked))
              || ((forall p :: p in unmarked <==> p in old(unmarked) || InPages(p, offset, length)) && marked == old(marked))
    {
      var ok := *;
      var pages := PagesFrom(offset / 4096, (offset + length - 1) / 4096);
      if ok { marked := marked + pages; } else { unmarked := unmarked + pages; }
    }

    /** MmFlushSection. */
    method FlushSection(offset: nat, length: nat, ok: bool)
      requires length > 0
      modifies this`flushed
      ensures forall p :: p in flushed <==> p in old(flushed) || (ok && InPages(p, offset, length))
    {
      if ok { flushed := flushed + PagesFrom(offset / 4096, (offset + length - 1) / 4096); }
    }

    /** SetActiveVacb for a dirty page: it becomes the active page, unless there is one, and then it is marked. */
    method SetActive(page: nat)
      modifies this`marked, this`unmarked, this`hasActive, this`activePage, this`activeIsDirty
      ensures Tracked(page) && forall p | old(Tracked(p)) :: Tracked(p)
      ensures hasActive && (old(hasActive) ==> activePage == old(activePage) && activeIsDirty == old(activeIsDirty))
      ensures !old(hasActive) ==> activePage == page && activeIsDirty && marked == old(marked) && unmarked == old(unmarked)
      ensures forall p | p in marked && p !in old(marked) :: p == page
      ensures forall p | p in unmarked && p !in old(unmarked) :: p == page
    {
      if !hasActive {
        hasActive, activePage, activeIsDirty := true, page, true;
      } else {
        SetDirtyInMask(4096 * page, 4096);
      }
    }

    /** The copy into one page. It may fault half way, or have to wait for the page. */
    method CopyToPage(at: nat, user: seq<Byte>, u: nat, n: nat, wait: bool, answer: Answer, ghost was: seq<Byte>, ghost offset: nat)
      returns (outcome: Outcome, ghost copied: nat)
      requires u + n <= |user| && at == offset + u && offset + |user| <= |was| && data == Copied(was, offset, user[..u])
      modifies this`data
      ensures u <= copied <= u + n && data == Copied(was, offset, user[..copied])
      ensures outcome.Done? ==> copied == u + n
      ensures outcome.WouldBlock? ==> copied == u
      ensures outcome == if Passes(answer, wait) then Done else if answer.Absent? then WouldBlock else Raised
    {
      var count := n;
      outcome := Done;
      if answer.Faults? {
        outcome := Raised;
        count := if answer.part < n then answer.part else n;
      } else if answer.Absent? && !wait {
        outcome := WouldBlock;
        count := 0;
      }
      CopiedMore(was, offset, user, u, u + count);
      copied := u + count;
      data := data[..at] + user[u..u + count] + data[at + count..];
    }

    /** All pages that a byte range touches are tracked. */
    ghost predicate AllTracked(offset: int, length: int)
      reads this`marked, this`flushed, this`unmarked, this`hasActive, this`activePage, this`activeIsDirty
    {
      forall p | InPages(p, offset, length) :: Tracked(p)
    }

    /** The loop over the pages of one view: `mapped` bytes from `local` on, of which `pageOffset` is the offset
        in the first page; `rest` bytes are left for later views. A small write ends by saving its last page as
        the active page. */
    method CopyPages(local: nat, mapped: nat, rest: nat, user: seq<Byte>, u0: nat, writeThrough: bool, wait: bool, mm: Mm,
                     ghost was: seq<Byte>, ghost offset: nat)
      returns (outcome: Outcome, saved: bool, u: nat, ghost copied: nat)
      requires mapped > 0 && u0 + mapped + rest == |user| && local == offset + u0 && offset + |user| <= |was|
      requires local + mapped <= ViewEnd(local) && (rest > 0 ==> local + mapped == ViewEnd(local))
      requires data == Copied(was, offset, user[..u0])
      modifies this`data, this`marked, this`unmarked, this`hasActive, this`activePage, this`activeIsDirty
      ensures u0 <= copied <= u0 + mapped && data == Copied(was, offset, user[..copied])
      ensures outcome.Done? ==> copied == u0 + mapped && (rest > 0 ==> u == u0 + mapped)
      ensures outcome.Done? ==> PassedTo(mm, local / 4096, PageNumber(local + mapped - 1) + 1, wait)
      ensures !outcome.Done? ==> exists page: int :: StopsAt(outcome, mm, local, mapped, wait, page)
      ensures saved ==> outcome.Done? && rest == 0 && !writeThrough && AllTracked(local, mapped)
      ensures forall p | old(Tracked(p)) :: Tracked(p)
      ensures NewWithin(marked, old(marked), local, mapped) && NewWithin(unmarked, old(unmarked), local, mapped)
      ensures outcome.Done? ==> (saved <==> IsSaved(user, offset, writeThrough) && rest == 0)
      ensures saved && !old(hasActive) ==> activePage == PageNumber(local + mapped) && activeIsDirty
      ensures saved || old(hasActive) ==> hasActive
      ensures !saved || old(hasActive) ==> hasActive == old(hasActive) && activePage == old(activePage) && activeIsDirty == old(activeIsDirty)
    {
      hide PassedTo, StopsAt;
      var page, pageOffset := local / 4096, local % 4096;
      var received := mapped + pageOffset;
      saved, outcome, u, copied := false, Done, u0, u0;
      ghost var endPage := 64 * (local / 0x4_0000) + 64;
      ViewEndsOnPage(local);
      NonePassed(mm, page, wait);
      var morePages := true;
      while morePages
        invariant outcome.Done? && 0 <= page && 0 <= pageOffset < 4096 && (morePages ==> pageOffset < received && 4096 * page + received == local + mapped)
        invariant morePages ==> copied == u && 4096 * page + pageOffset == offset + u && u0 <= u
        invariant rest > 0 && morePages ==> received == 4096 * (endPage - page)
        invariant !morePages ==> copied == u0 + mapped && (rest > 0 ==> u == u0 + mapped)
        invariant data == Copied(was, offset, user[..copied]) && copied <= |user|
        invariant |user| <= 2048 && !writeThrough && morePages ==> forall p | local / 4096 <= p < page :: Tracked(p)
        invariant forall p | old(Tracked(p)) :: Tracked(p)
        invariant NewWithin(marked, old(marked), local, mapped) && NewWithin(unmarked, old(unmarked), local, mapped)
        invariant hasActive == old(hasActive) && activePage == old(activePage) && activeIsDirty == old(activeIsDirty)
        invariant PassedTo(mm, local / 4096, if morePages then page else PageNumber(local + mapped - 1) + 1, wait)
        invariant local / 4096 <= page && (!morePages ==> rest > 0 || !IsSaved(user, offset, writeThrough))
        decreases morePages, received
      {
        var savePage := rest == 0 && received < 4096 && |user| <= 2048 && !writeThrough;
        morePages := received > 4096;
        var n := if morePages then 4096 - pageOffset else received - pageOffset;
        outcome, copied := CopyToPage(4096 * page + pageOffset, user, u, n, wait, mm.page(page), was, offset);
        PagePasses(mm, local, mapped, page, received, wait, outcome);
        if !outcome.Done? {
          return;
        }
        if !morePages { EndsInPage(local, mapped, page, received); }
        if savePage {
          SetActive(page);
          LastPage(local, mapped, page, received);
          assert forall p | InPages(p, local, mapped) :: p == page || local / 4096 <= p < page;
          saved := true;
          return;
        }
        if |user| <= 2048 && !writeThrough {
          SetDirtyInMask(4096 * page, received);
        }
        u, pageOffset := u + (4096 - pageOffset), 0;
        if morePages {
          received, page := received - 4096, page + 1;
        }
      }
    }

    /** CcMapAndCopy. When it is done, exactly the caller's bytes are in the cache, at exactly the range asked
        for, and every page touched has been marked, saved as the dirty active page, flushed, or could not be
        marked. However it ends, nothing but a prefix of the bytes has been copied; and if an exception ended it,
        the same is true of every page that was copied to (write-through apart, whose pages Mm has been told
        of). */
    method Write(user: seq<Byte>, offset: nat, writeThrough: bool, wait: bool, mm: Mm) returns (outcome: Outcome, ghost copied: nat)
      requires offset + |user| <= |data|
      modifies this
      ensures copied <= |user| && data == Copied(old(data), offset, user[..copied])
      ensures outcome.Done? ==> copied == |user| && AllTracked(offset, |user|)
      ensures outcome.Done? <==>
                && (writeThrough ==> wait && (|user| > 0 ==> mm.whole)) && Clear(mm, offset, |user|, offset + |user|, wait)
      ensures outcome.WouldBlock? ==> !wait && (writeThrough || SomeAbsent(mm, offset, |user|))
      ensures outcome.Raised? ==> SomeFault(mm, offset, |user|, offset + |user|) || (writeThrough && !mm.whole)
      ensures outcome.Raised? && !writeThrough ==> AllTracked(offset, copied)
      ensures outcome.Done? ==>
                forall p :: p in flushed <==> InPages(p, offset, |user|) && (writeThrough || FarFromEnd(p, offset + |user|))
      ensures outcome.Done? && IsSaved(user, offset, writeThrough) && !old(hasActive) ==>
                hasActive && activePage == PageNumber(offset + |user|) && activeIsDirty
      ensures outcome.Done? && (!IsSaved(user, offset, writeThrough) || old(hasActive)) ==>
                hasActive == old(hasActive) && activePage == old(activePage) && activeIsDirty == old(activeIsDirty)
      ensures NewWithin(marked, old(marked), offset, |user|) && NewWithin(unmarked, {}, offset, |user|)
    {
      hide Clear, SomeAbsent, SomeFault, FarFromEnd, Copied, InPages, FlushedIs, NewWithin, ViewEnd, IsSaved, OnPageBound, PageNumber, CachedFile.AllTracked, CachedFile.Tracked;
      flushed, unmarked := {}, {};
      NothingYet(user, offset);
      OneReason(mm, offset, |user|, wait);
      NothingOnTheWay(mm, offset, |user|, wait);
      if writeThrough && !wait {
        return WouldBlock, 0;
      }
      ghost var was := data;
      var length, local, u, saved := |user|, offset, 0, false;
      outcome, copied := Done, 0;
      while length != 0
        invariant outcome.Done? && length >= 0 && copied + length == |user| && local == offset + copied
        invariant data == Copied(was, offset, user[..copied])
        invariant length != 0 ==> u == copied
        invariant !writeThrough ==> AllTracked(offset, copied)
        invariant Clear(mm, offset, copied, offset + |user|, wait)
        invariant FlushedIs(flushed, offset, copied, offset + |user|)
        invariant copied > 0 && length != 0 ==> OnPageBound(local)
        invariant hasActive == old(hasActive) && activePage == old(activePage) && activeIsDirty == old(activeIsDirty)
        invariant length == 0 && |user| > 0 ==> !IsSaved(user, offset, writeThrough)
        invariant NewWithin(marked, old(marked), offset, |user|) && NewWithin(unmarked, {}, offset, |user|)
        decreases length
      {
        var mapped := ViewEnd(local) - local;
        ViewIsAbove(local);
        if mapped > length { mapped := length; }
        length := length - mapped;
        ghost var before, wasFlushed, wasMarked, wasUnmarked := copied, flushed, marked, unmarked;
        outcome, saved, u, copied := WriteView(local, mapped, length, user, u, writeThrough, wait, mm, was, offset);
        ReasonMore(mm, offset, before, local, mapped, |user|, wait, outcome);
        NewMore(marked, wasMarked, old(marked), offset, |user|, local, mapped);
        NewMore(unmarked, wasUnmarked, {}, offset, |user|, local, mapped);
        if !writeThrough && !outcome.WouldBlock? { Joined(offset, before, local, mapped, copied - before); }
        if outcome.Done? { FlushedMore(wasFlushed, flushed, offset, before, local, mapped, offset + |user|); }
        if outcome.Raised? && writeThrough {
          FlushSection(offset, |user|, mm.whole);
        }
        if saved || !outcome.Done? {
          AllIsThere(user, offset, flushed);
          return;
        }
        local := local + mapped;
      }
      AllIsThere(user, offset, flushed);
      if writeThrough && |user| != 0 {
        FlushSection(offset, |user|, mm.whole);
        if mm.whole { FlushedIsTracked(offset, |user|); } else { outcome := Raised; }
      }
    }

    lemma FlushedIsTracked(offset: int, length: int)
      requires forall p | InPages(p, offset, length) :: p in flushed
      ensures AllTracked(offset, length)
    {
    }

    lemma NothingYet(user: seq<Byte>, offset: nat)
      requires flushed == unmarked == {} && offset + |user| <= |data|
      ensures data == Copied(data, offset, user[..0]) && AllTracked(offset, 0) && FlushedIs({}, offset, 0, offset + |user|)
      ensures NewWithin(marked, marked, offset, |user|) && NewWithin({}, {}, offset, |user|)
      ensures |user| == 0 ==> forall writeThrough :: !IsSaved(user, offset, writeThrough)
    {
    }

    lemma AllIsThere(user: seq<Byte>, offset: nat, flushed: set<int>)
      ensures user[..|user|] == user && (|user| == 0 ==> AllTracked(offset, 0) && forall p :: !InPages(p, offset, |user|))
      ensures FlushedIs(flushed, offset, |user|, offset + |user|) ==>
                forall p :: p in flushed <==> InPages(p, offset, |user|) && FarFromEnd(p, offset + |user|)
    {
    }

    lemma ReasonOfCopy(mm: Mm, local: nat, mapped: nat, rest: nat, wait: bool, outcome: Outcome)
      requires mapped > 0 && local + mapped <= ViewEnd(local) && (rest > 0 ==> local + mapped == ViewEnd(local))
      requires outcome.Done? ==> PassedTo(mm, local / 4096, PageNumber(local + mapped - 1) + 1, wait)
      requires !outcome.Done? ==> exists page: int :: StopsAt(outcome, mm, local, mapped, wait, page)
      ensures !outcome.Done? || rest <= MAX_DIRTY_WRITE || mm.view(ViewEnd(local)) ==>
                ReasonIs(outcome, mm, local, mapped, local + mapped + rest, wait)
      ensures outcome.Done? && rest > MAX_DIRTY_WRITE && !mm.view(ViewEnd(local)) ==>
                ReasonIs(Raised, mm, local, mapped, local + mapped + rest, wait)
    {
      hide PassedTo, ReasonIs, ViewEnd;
      var page := local / 4096;
      if !outcome.Done? {
        page :| StopsAt(outcome, mm, local, mapped, wait, page);
      }
      ReasonInView(mm, local, mapped, local + mapped + rest, wait, page);
    }

    /** One view of the write: the copy, and what is done so that its pages get written. */
    method WriteView(local: nat, mapped: nat, rest: nat, user: seq<Byte>, u0: nat, writeThrough: bool, wait: bool, mm: Mm,
                     ghost was: seq<Byte>, ghost offset: nat)
      returns (outcome: Outcome, saved: bool, u: nat, ghost copied: nat)
      requires mapped > 0 && u0 + mapped + rest == |user| && local == offset + u0 && offset + |user| <= |was|
      requires local + mapped <= ViewEnd(local) && (rest > 0 ==> local + mapped == ViewEnd(local))
      requires data == Copied(was, offset, user[..u0])
      modifies this
      ensures u0 <= copied <= u0 + mapped && data == Copied(was, offset, user[..copied])
      ensures outcome.Done? ==> copied == u0 + mapped && (rest > 0 ==> u == u0 + mapped)
      ensures ReasonIs(outcome, mm, local, mapped, local + mapped + rest, wait)
      ensures saved ==> outcome.Done? && rest == 0 && !writeThrough
      ensures !writeThrough && !outcome.WouldBlock? ==> AllTracked(local, mapped)
      ensures old(AllTracked(offset, u0)) ==> AllTracked(offset, u0)
      ensures NewWithin(marked, old(marked), local, mapped) && NewWithin(unmarked, old(unmarked), local, mapped)
      ensures outcome.Done? ==> forall p :: p in flushed <==> p in old(flushed) || (rest > MAX_DIRTY_WRITE && InPages(p, local, mapped))
      ensures outcome.Done? ==> (saved <==> IsSaved(user, offset, writeThrough) && rest == 0)
      ensures saved && !old(hasActive) ==> activePage == PageNumber(local + mapped) && activeIsDirty
      ensures saved || old(hasActive) ==> hasActive
      ensures !saved || old(hasActive) ==> hasActive == old(hasActive) && activePage == old(activePage) && activeIsDirty == old(activeIsDirty)
    {
      hide ViewEnd, Copied, IsSaved, PassedTo, StopsAt, ReasonIs;
      outcome, saved, u, copied := CopyPages(local, mapped, rest, user, u0, writeThrough, wait, mm, was, offset);
      ReasonOfCopy(mm, local, mapped, rest, wait, outcome);
      if saved || outcome.WouldBlock? {
        return;
      }
      if outcome.Done? && rest > MAX_DIRTY_WRITE {
        var ok := mm.view(ViewEnd(local));
        FlushSection(local, mapped, ok);          // no need to mark the pages as well
        if !ok { outcome := Raised; }
      } else if outcome.Done? && !writeThrough {
        SetDirtyInMask(local, mapped);
      }
      if outcome.Raised? && !writeThrough {
        SetDirtyInMask(local, mapped);
      }
    }

    lemma Joined(offset: int, first: int, local: int, mapped: int, more: int)
      requires 0 <= offset && 0 <= first && local == offset + first && 0 <= more <= mapped
      requires AllTracked(offset, first) && AllTracked(local, mapped)
      ensures AllTracked(offset, first + more)
    {
      forall p | InPages(p, offset, first + more) ensures Tracked(p) {
        assert InPages(p, offset, first) || InPages(p, local, mapped);
      }
    }
  }
}
