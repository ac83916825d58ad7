/**
 The write throttle: CcCanIWrite, CcDeferWrite and CcPostDeferredWrites with its two nested loops. The queue is
 locked for each pass over it; in between, others may queue more writes.
 */
module DeferredWrites {
  const MAXUCHAR := 255
  const WRITE_CHARGE_THRESHOLD := 0x4_0000         // 64 * PAGE_SIZE

  /** `limited` is FSRTL_FLAG_LIMIT_MODIFIED_PAGES on the file's common header. */
  datatype File = File(writeThrough: bool, remote: bool, limited: bool)

  datatype Entry = Entry(id: int, file: File, bytes: nat, limitModifiedPages: bool)

  /** What a test depends on besides its arguments: the dirty page counts and limits, and what Mm says. A
      `fileThreshold` of zero stands for a file without one, or one that is not cached. */
  datatype Now = Now(totalDirty: nat, threshold: nat, enoughMemory: bool, fileDirty: nat, fileThreshold: nat)

  predicate Exempt(file: File, retrying: nat) {
    file.writeThrough || (file.remote && retrying < MAXUCHAR - 2)
  }

  /** A write is charged for the pages it takes up, a long one for 64. */
  function PagesToWrite(bytes: nat): (pages: nat)
    ensures if bytes < WRITE_CHARGE_THRESHOLD then 4096 * pages - 4096 < bytes <= 4096 * pages else pages == 64
  {
    ((if bytes < WRITE_CHARGE_THRESHOLD then bytes else WRITE_CHARGE_THRESHOLD) + 4095) / 4096
  }

  /** CcCanIWrite without the wait. */
  function CanIWrite(file: File, bytes: nat, retrying: nat, queueIsEmpty: bool, now: Now): bool {
    Exempt(file, retrying) ||
    (var pages := PagesToWrite(bytes);
     var exceeded := (retrying >= MAXUCHAR - 1 || file.limited) && now.fileThreshold != 0 && now.fileDirty != 0 &&
                     pages + now.fileDirty > now.fileThreshold;
     (retrying != 0 || queueIsEmpty) && now.totalDirty + pages < now.threshold && now.enoughMemory && !exceeded)
  }

  /** Mm has memory, the pages stay below the threshold for all files and, if the file's own counts, do not exceed
      that. */
  predicate WithinLimits(bytes: nat, own: bool, now: Now) {
    && now.enoughMemory && now.totalDirty + PagesToWrite(bytes) < now.threshold
    && (own && now.fileThreshold != 0 && now.fileDirty != 0 ==> now.fileDirty + PagesToWrite(bytes) <= now.fileThreshold)
  }

  // ----- One pass over the queue ---------------------------------------------------------------------

  /** A test of the entry, charged with everything let loose in this call so far as well. */
  datatype Test = Test(entry: Entry, total: nat, now: Now)

  predicate Granted(t: Test) {
    CanIWrite(t.entry.file, t.total, MAXUCHAR - 1, false, t.now)
  }

  /** Why a pass got past the first `k` entries: each was tried, denied, and is only privately throttled. */
  predicate Skipped(queue: seq<Entry>, k: nat, total: nat, tests: seq<Test>) {
    && k <= |queue| && k <= |tests|
    && forall i | 0 <= i < k ::
         queue[i].limitModifiedPages && tests[i] == Test(queue[i], total + queue[i].bytes, tests[i].now) && !Granted(tests[i])
  }

  /** Why a pass released entry `k`. */
  predicate Releases(queue: seq<Entry>, k: nat, total: nat, tests: seq<Test>) {
    && k < |queue| && |tests| == k + 1 && Skipped(queue, k, total, tests)
    && tests[k] == Test(queue[k], total + queue[k].bytes, tests[k].now) && Granted(tests[k])
    && total + queue[k].bytes < 0x1_0000_0000
  }

  /** Why a pass released nothing: it came to the end, or to an entry that would make the total wrap, or to an
      ordinary entry that was denied. */
  predicate Stops(queue: seq<Entry>, k: nat, total: nat, tests: seq<Test>) {
    && Skipped(queue, k, total, tests)
    && (|| k == |queue|
        || total + queue[k].bytes >= 0x1_0000_0000
        || (|tests| == k + 1 && !queue[k].limitModifiedPages && !Granted(tests[k]) &&
            tests[k] == Test(queue[k], total + queue[k].bytes, tests[k].now)))
  }

  /** The tests saw what held when they were made: `asks(j, i)` is what holds when pass `j` tries entry `i`. */
  ghost predicate Asked(tests: seq<Test>, j: int, asks: (int, int) -> Now) {
    forall i | 0 <= i < |tests| :: tests[i].now == asks(j, i)
  }

  method Pass(queue: seq<Entry>, totalBytesLetLoose: nat, j: int, asks: (int, int) -> Now) returns (found: bool, k: nat, total: nat, ghost tests: seq<Test>)
    requires totalBytesLetLoose < 0x1_0000_0000 && forall i | 0 <= i < |queue| :: queue[i].bytes < 0x1_0000_0000
    ensures found ==> k < |queue|
    ensures if found then Releases(queue, k, totalBytesLetLoose, tests) && total == totalBytesLetLoose + queue[k].bytes
            else Stops(queue, k, totalBytesLetLoose, tests)
    ensures Asked(tests, j, asks)
  {
    found, k, total, tests := false, 0, totalBytesLetLoose, [];
    while k < |queue|
      invariant k <= |queue| && |tests| == k && total == totalBytesLetLoose && !found
      invariant Skipped(queue, k, totalBytesLetLoose, tests) && Asked(tests, j, asks)
    {
      var e := queue[k];
      total := (total + e.bytes) % 0x1_0000_0000;
      if total < e.bytes {
        break;
      }
      var now := asks(j, k);
      tests := tests + [Test(e, total, now)];
      if CanIWrite(e.file, total, MAXUCHAR - 1, false, now) {
        found := true;
        break;
      }
      if !e.limitModifiedPages {
        break;
      }
      total := (total - e.bytes) % 0x1_0000_0000;
      k := k + 1;
    }
  }

  // ----- The whole call ------------------------------------------------------------------------------

  /** One release: the entries still ahead, the entry, the bytes let loose by this call including it, and the
      tests that led to it. */
  datatype Release = Release(ahead: seq<Entry>, entry: Entry, total: nat, tests: seq<Test>)

  ghost function Entries(log: seq<Release>): (es: seq<Entry>)
    ensures |es| == |log| && forall i | 0 <= i < |log| :: es[i] == log[i].entry
  {
    seq(|log|, i requires 0 <= i < |log| => log[i].entry)
  }

  function Bytes(es: seq<Entry>): nat {
    if es == [] then 0 else Bytes(es[..|es| - 1]) + es[|es| - 1].bytes
  }

  /** Ordinary entries are never overtaken, and every entry let go was granted on top of all that this call had
      let loose before it. */
  ghost predicate LogOk(log: seq<Release>) {
    forall j | 0 <= j < |log| :: ReleaseOk(log, j)
  }

  ghost predicate ReleaseOk(log: seq<Release>, j: int)
    requires 0 <= j < |log|
  {
      && (forall i | 0 <= i < |log[j].ahead| :: log[j].ahead[i].limitModifiedPages)
      && log[j].total == Bytes(Entries(log[..j + 1])) < 0x1_0000_0000
      && log[j].tests != [] && log[j].tests[|log[j].tests| - 1] == Test(log[j].entry, log[j].total, log[j].tests[|log[j].tests| - 1].now)
      && Granted(log[j].tests[|log[j].tests| - 1])
      && (log[j].entry.file.writeThrough || WithinLimits(log[j].total, true, log[j].tests[|log[j].tests| - 1].now))
  }

  /** A queued write may go if it is write-through, or everything that would then have been let loose keeps to the
      limits. That it is remote or not asked to be limited no longer counts. */
  lemma GrantedIff(t: Test)
    ensures Granted(t) <==> t.entry.file.writeThrough || WithinLimits(t.total, true, t.now)
  {
  }

  /** Each pass asked. */
  ghost predicate AllAsked(log: seq<Release>, asks: (int, int) -> Now) {
    forall j | 0 <= j < |log| :: Asked(log[j].tests, j, asks)
  }

  lemma LogGrows(log: seq<Release>, queue: seq<Entry>, k: nat, before: nat, tests: seq<Test>)
    requires LogOk(log) && before == Bytes(Entries(log)) && Releases(queue, k, before, tests)
    ensures LogOk(log + [Release(queue[..k], queue[k], before + queue[k].bytes, tests)])
    ensures Bytes(Entries(log + [Release(queue[..k], queue[k], before + queue[k].bytes, tests)])) == before + queue[k].bytes
  {
    var r := Release(queue[..k], queue[k], before + queue[k].bytes, tests);
    var more := log + [r];
    EntriesMore(log, r);
    forall j | 0 <= j < |more| ensures ReleaseOk(more, j) {
      if j < |log| {
        assert ReleaseOk(log, j) && more[..j + 1] == log[..j + 1];
      } else {
        assert more[..j + 1] == more;
      }
    }
  }

  lemma EntriesMore(log: seq<Release>, r: Release)
    ensures Entries(log + [r]) == Entries(log) + [r.entry]
    ensures Bytes(Entries(log + [r])) == Bytes(Entries(log)) + r.entry.bytes
  {
    assert Entries(log + [r]) == Entries(log) + [r.entry];
    assert (Entries(log) + [r.entry])[..|log|] == Entries(log);
  }

  class Throttle {
    var queue: seq<Entry>                         // CcDeferredWrites
    var letGo: seq<Entry>                         // whose event was set or post routine called, in that order
    var granted: seq<Entry>                       // that CcCanIWrite let in at once

    ghost function Now(): State
      reads this
    {
      State(queue, letGo, granted)
    }

    ghost predicate Valid()
      reads this
    {
      forall i | 0 <= i < |queue| :: queue[i].bytes < 0x1_0000_0000
    }

    constructor ()
      ensures Valid() && Now() == State([], [], [])
    {
      queue, letGo, granted := [], [], [];
    }

    /** CcCanIWrite for a new write, whose caller will not wait. */
    method AskToWrite(e: Entry, retrying: nat, now: Now) returns (ok: bool)
      requires Valid() && Fresh(Now(), e)
      modifies this`granted
      ensures ok <==> Possible(old(Now()), Grant(e, retrying, now))
      ensures Now() == if ok then After(old(Now()), Grant(e, retrying, now)) else old(Now())
    {
      ok := CanIWrite(e.file, e.bytes, retrying, queue == [], now);
      if ok { granted := granted + [e]; }
    }

    /** Others queue writes, at the head when retrying, else at the tail; `left` counts down how many. */
    method Arrivals(turns: nat) returns (left: nat, ghost arrived: seq<Entry>, ghost steps: seq<Step>)
      requires Valid()
      modifies this`queue
      ensures Valid() && left <= turns && |queue| == |old(queue)| + (turns - left)
      ensures multiset(queue) == multiset(old(queue)) + multiset(arrived)
      ensures left == turns ==> queue == old(queue) && arrived == []
      ensures Leads(old(Now()), steps, Now()) && forall i | 0 <= i < |steps| :: !steps[i].LetGo?
    {
      hide Came, IsFresh;
      left, arrived, steps := turns, [], [];
      NobodyCame(Now(), turns);
      var more := *;
      while more && left > 0
        invariant Valid() && Came(old(Now()), Now(), arrived, steps, turns, left)
        decreases left
      {
        var e: Entry, retrying: bool := *, *;
        if e.bytes >= 0x1_0000_0000 || !IsFresh(queue, e) || !IsFresh(letGo, e) || !IsFresh(granted, e) {
          break;
        }
        CameMore(old(Now()), Now(), arrived, steps, turns, left, e, retrying);
        queue := if retrying then [e] + queue else queue + [e];
        arrived, steps, left := arrived + [e], steps + [if retrying then AtHead(e) else AtTail(e)], left - 1;
        more := *;
      }
      CameIs(old(Now()), Now(), arrived, steps, turns, left);
    }

    /** CcPostDeferredWrites. What was queued is let go exactly once or is still queued, the log says in what
        order and why, and the last pass says why no more was let go. It ends however much others queue. */
    method PostDeferredWrites(turns: nat, asks: (int, int) -> Now)
      returns (left: nat, ghost log: seq<Release>, ghost arrived: seq<Entry>, ghost k: nat, ghost total: nat, ghost tests: seq<Test>, ghost steps: seq<Step>)
      requires Valid()
      modifies this`queue, this`letGo
      ensures Valid() && left <= turns && LogOk(log) && letGo == old(letGo) + Entries(log)
      ensures multiset(old(queue)) + multiset(arrived) == multiset(queue) + multiset(Entries(log))
      ensures left == turns ==> arrived == [] && IsRest(old(queue), queue)
      ensures total == Bytes(Entries(log)) && Stops(queue, k, total, tests)
      ensures AllAsked(log, asks) && Asked(tests, |log|, asks)
      ensures Leads(old(Now()), steps, Now())
    {
      hide Releases, Stops, Granted, Bytes, Entries, Possible, Account, Asked;
      var loose, passes: nat, found := 0, 0, true;
      left, log, arrived, k, total, tests, steps := turns, [], [], 0, 0, [], [];
      NothingYet(Now());
      while found
        invariant Valid() && left <= turns && granted == old(granted)
        invariant Account(old(Now()), Now(), log, arrived, steps, left == turns)
        invariant loose == total == Bytes(Entries(log)) < 0x1_0000_0000 && passes == |log|
        invariant !found ==> Stops(queue, k, total, tests) && Asked(tests, |log|, asks)
        invariant AllAsked(log, asks)
        decreases found, 2 * left + |queue|
      {
        var at, after;
        found, at, after, tests := Pass(queue, loose, passes, asks);
        k := at;
        if found {
          ghost var r := Release(queue[..at], queue[at], after, tests);
          AccountRelease(old(Now()), Now(), log, arrived, steps, left == turns, at, loose, tests, r);
          letGo := letGo + [queue[at]];
          queue := queue[..at] + queue[at + 1..];
          log, steps, loose, total, passes := log + [r], steps + [LetGo(at)], after, after, passes + 1;
          ghost var came, more, before, quiet := [], [], Now(), left == turns;
          left, came, more := Arrivals(left);
          AccountArrivals(old(Now()), before, Now(), log, arrived, came, steps, more, quiet, left == turns);
          arrived, steps := arrived + came, steps + more;
        }
      }
      AccountClosed(old(Now()), Now(), log, arrived, steps, left == turns);
    }

    /** CcDeferWrite: without memory for an entry the write is posted at once; else it is queued, at the head
        when retrying, and the queue is looked through. */
    method DeferWrite(e: Entry, retrying: bool, memory: bool, asks: (int, int) -> Now) returns (ghost steps: seq<Step>)
      requires Valid() && e.bytes < 0x1_0000_0000 && Fresh(Now(), e)
      modifies this`queue, this`letGo
      ensures Valid() && old(letGo) <= letGo && Leads(old(Now()), steps, Now()) && steps != []
      ensures steps[0] == if !memory then PostAtOnce(e) else if retrying then AtHead(e) else AtTail(e)
      ensures multiset(letGo) + multiset(queue) == multiset(old(letGo)) + multiset(old(queue)) + multiset{e}
      ensures !memory ==> letGo == old(letGo) + [e] && queue == old(queue)
      ensures memory ==> IsRest(if retrying then [e] + old(queue) else old(queue) + [e], queue)
    {
      hide LogOk, IsRest, Stops, Leads;
      ghost var first := if !memory then PostAtOnce(e) else if retrying then AtHead(e) else AtTail(e);
      NoSteps(Now());
      LeadsMore(Now(), [], Now(), first);
      steps := [] + [first];
      if !memory {
        letGo := letGo + [e];
        return;
      }
      queue := if retrying then [e] + queue else queue + [e];
      ghost var queued := queue;
      var left;
      ghost var before, log, arrived, k, total, tests, more := Now(), [], [], 0, 0, [], [];
      left, log, arrived, k, total, tests, more := PostDeferredWrites(0, asks);
      LeadsJoin(old(Now()), steps, before, more, Now());
      steps := steps + more;
      Settle(old(letGo), old(queue), e, queued, queue, Entries(log));
    }
  }

  /** Only arrivals have happened. */
  ghost predicate Came(was: State, now: State, arrived: seq<Entry>, steps: seq<Step>, turns: int, left: int) {
    && 0 <= left <= turns && |now.queue| == |was.queue| + (turns - left) && now == was.(queue := now.queue)
    && multiset(now.queue) == multiset(was.queue) + multiset(arrived)
    && (left == turns ==> now.queue == was.queue && arrived == [])
    && Leads(was, steps, now) && forall i | 0 <= i < |steps| :: !steps[i].LetGo?
  }

  lemma NobodyCame(s: State, turns: nat)
    ensures Came(s, s, [], [], turns, turns)
  {
  }

  lemma CameIs(was: State, now: State, arrived: seq<Entry>, steps: seq<Step>, turns: int, left: int)
    requires Came(was, now, arrived, steps, turns, left)
    ensures 0 <= left <= turns && |now.queue| == |was.queue| + (turns - left)
    ensures multiset(now.queue) == multiset(was.queue) + multiset(arrived)
    ensures left == turns ==> now.queue == was.queue && arrived == []
    ensures Leads(was, steps, now) && forall i | 0 <= i < |steps| :: !steps[i].LetGo?
  {
  }

  lemma CameMore(was: State, now: State, arrived: seq<Entry>, steps: seq<Step>, turns: int, left: int, e: Entry, retrying: bool)
    requires Came(was, now, arrived, steps, turns, left) && left > 0 && Fresh(now, e)
    ensures Came(was, now.(queue := if retrying then [e] + now.queue else now.queue + [e]), arrived + [e],
                 steps + [if retrying then AtHead(e) else AtTail(e)], turns, left - 1)
  {
    hide Leads, Possible, After, IsFresh;
    var step := if retrying then AtHead(e) else AtTail(e);
    Arrived(now, e, retrying, step);
    LeadsMore(was, steps, now, step);
  }

  lemma Arrived(s: State, e: Entry, retrying: bool, step: Step)
    requires Fresh(s, e) && step == if retrying then AtHead(e) else AtTail(e)
    ensures Possible(s, step) && After(s, step) == s.(queue := if retrying then [e] + s.queue else s.queue + [e])
    ensures multiset(After(s, step).queue) == multiset(s.queue) + multiset{e}
  {
  }

  /** What is left of a queue, in the same order. */
  ghost predicate IsRest(was: seq<Entry>, now: seq<Entry>) {
    exists places: seq<int> :: Picks(was, now, places)
  }

  predicate Picks(was: seq<Entry>, now: seq<Entry>, places: seq<int>) {
    && |places| == |now|
    && (forall i | 0 <= i < |now| :: 0 <= places[i] < |was| && now[i] == was[places[i]])
    && (forall i, j | 0 <= i < j < |now| :: places[i] < places[j])
  }

  /** What a call has done so far: what it let go and why, that nothing was lost or made up, and the steps that it
      and those who arrived took. */
  ghost predicate Account(was: State, now: State, log: seq<Release>, arrived: seq<Entry>, steps: seq<Step>, quiet: bool) {
    && LogOk(log) && now.gone == was.gone + Entries(log)
    && Books(was.queue, arrived, now.queue, Entries(log), quiet) && Leads(was, steps, now)
  }

  lemma NothingYet(s: State)
    ensures Account(s, s, [], [], [], true) && Bytes(Entries([])) == 0
  {
    assert Picks(s.queue, s.queue, seq(|s.queue|, i => i));
  }

  lemma AccountRelease(was: State, now: State, log: seq<Release>, arrived: seq<Entry>, steps: seq<Step>, quiet: bool,
                       k: nat, before: nat, tests: seq<Test>, r: Release)
    requires Account(was, now, log, arrived, steps, quiet) && before == Bytes(Entries(log)) && Releases(now.queue, k, before, tests)
    requires k < |now.queue| && r == Release(now.queue[..k], now.queue[k], before + now.queue[k].bytes, tests)
    ensures Possible(now, LetGo(k)) && Account(was, After(now, LetGo(k)), log + [r], arrived, steps + [LetGo(k)], quiet)
    ensures r.total == Bytes(Entries(log + [r])) < 0x1_0000_0000
  {
    hide LogOk, Books, Leads, Granted, Bytes, Entries;
    ReleaseIsAStep(now, k, before, tests);
    LogGrows(log, now.queue, k, before, tests);
    EntriesMore(log, r);
    BooksRelease(was.queue, arrived, now.queue, Entries(log), quiet, k);
    LeadsMore(was, steps, now, LetGo(k));
  }

  lemma AccountArrivals(was: State, before: State, now: State, log: seq<Release>, arrived: seq<Entry>, came: seq<Entry>,
                        steps: seq<Step>, more: seq<Step>, wasQuiet: bool, quiet: bool)
    requires Account(was, before, log, arrived, steps, wasQuiet) && (quiet ==> wasQuiet) && now.gone == before.gone
    requires multiset(now.queue) == multiset(before.queue) + multiset(came) && (quiet ==> came == [] && now.queue == before.queue)
    requires Leads(before, more, now)
    ensures Account(was, now, log, arrived + came, steps + more, quiet)
  {
    hide LogOk, Books, Leads;
    BooksArrivals(was.queue, arrived, came, before.queue, now.queue, Entries(log), wasQuiet, quiet);
    LeadsJoin(was, steps, before, more, now);
  }

  lemma AccountClosed(was: State, now: State, log: seq<Release>, arrived: seq<Entry>, steps: seq<Step>, quiet: bool)
    requires Account(was, now, log, arrived, steps, quiet)
    ensures LogOk(log) && now.gone == was.gone + Entries(log) && Leads(was, steps, now)
    ensures multiset(was.queue) + multiset(arrived) == multiset(now.queue) + multiset(Entries(log))
    ensures quiet ==> arrived == [] && IsRest(was.queue, now.queue)
  {
  }

  lemma Settle(gone: seq<Entry>, was: seq<Entry>, e: Entry, queued: seq<Entry>, queue: seq<Entry>, more: seq<Entry>)
    requires queued == [e] + was || queued == was + [e]
    requires multiset(queued) + multiset([]) == multiset(queue) + multiset(more)
    ensures multiset(gone + more) + multiset(queue) == multiset(gone) + multiset(was) + multiset{e}
  {
    assert multiset(gone + more) == multiset(gone) + multiset(more);
    assert multiset(queued) == multiset(was) + multiset{e};
    assert multiset(queue) + multiset(more) == multiset(was) + multiset{e};
    assert multiset(gone) + multiset(more) + multiset(queue) == multiset(gone) + (multiset(queue) + multiset(more));
  }

  lemma TakenOut(was: seq<Entry>, queue: seq<Entry>, k: nat)
    requires k < |queue| && IsRest(was, queue)
    ensures IsRest(was, queue[..k] + queue[k + 1..])
  {
    var places :| Picks(was, queue, places);
    var now, left := queue[..k] + queue[k + 1..], places[..k] + places[k + 1..];
    forall i | 0 <= i < |now| ensures now[i] == queue[Skip(k, i)] && left[i] == places[Skip(k, i)] {
    }
    assert Picks(was, now, left);
  }

  function Skip(k: int, i: int): int { if i < k then i else i + 1 }

  lemma OneLess(queue: seq<Entry>, k: nat)
    requires k < |queue|
    ensures multiset(queue) == multiset(queue[..k] + queue[k + 1..]) + multiset{queue[k]}
  {
    assert queue == queue[..k] + [queue[k]] + queue[k + 1..];
  }

  /** What was queued and what arrived is what waits and what is gone; with no arrivals, order is kept. */
  ghost predicate Books(was: seq<Entry>, arrived: seq<Entry>, queue: seq<Entry>, gone: seq<Entry>, quiet: bool) {
    && multiset(was) + multiset(arrived) == multiset(queue) + multiset(gone)
    && (quiet ==> arrived == [] && IsRest(was, queue))
  }

  lemma BooksRelease(was: seq<Entry>, arrived: seq<Entry>, queue: seq<Entry>, gone: seq<Entry>, quiet: bool, k: nat)
    requires Books(was, arrived, queue, gone, quiet) && k < |queue|
    ensures Books(was, arrived, queue[..k] + queue[k + 1..], gone + [queue[k]], quiet)
  {
    hide IsRest;
    if quiet { TakenOut(was, queue, k); }
    Conserved(multiset(was), arrived, queue, gone, k);
  }

  lemma BooksArrivals(was: seq<Entry>, arrived: seq<Entry>, came: seq<Entry>, before: seq<Entry>, queue: seq<Entry>, gone: seq<Entry>, wasQuiet: bool, quiet: bool)
    requires Books(was, arrived, before, gone, wasQuiet) && (quiet ==> wasQuiet)
    requires multiset(queue) == multiset(before) + multiset(came) && (quiet ==> came == [] && queue == before)
    ensures Books(was, arrived + came, queue, gone, quiet)
  {
    ConservedByArrivals(multiset(was), arrived, came, before, queue, gone);
  }

  lemma Conserved(was: multiset<Entry>, arrived: seq<Entry>, queue: seq<Entry>, gone: seq<Entry>, k: nat)
    requires k < |queue| && was + multiset(arrived) == multiset(queue) + multiset(gone)
    ensures was + multiset(arrived) == multiset(queue[..k] + queue[k + 1..]) + multiset(gone + [queue[k]])
  {
    OneLess(queue, k);
  }

  lemma ConservedByArrivals(was: multiset<Entry>, arrived: seq<Entry>, came: seq<Entry>, before: seq<Entry>, queue: seq<Entry>, gone: seq<Entry>)
    requires was + multiset(arrived) == multiset(before) + multiset(gone) && multiset(queue) == multiset(before) + multiset(came)
    ensures was + multiset(arrived + came) == multiset(queue) + multiset(gone)
  {
    assert multiset(arrived + came) == multiset(arrived) + multiset(came);
    assert was + (multiset(arrived) + multiset(came)) == (was + multiset(arrived)) + multiset(came);
    assert (multiset(before) + multiset(gone)) + multiset(came) == (multiset(before) + multiset(came)) + multiset(gone);
  }

  // ----- Runs: any number of callers -------------------------------------------------------------------

  /** Threads queue writes and release them in any order of steps. A release is a pass that ends well, by whatever
      thread. Others are let in at the door by CcCanIWrite, which counts from where it looks at the queue; or are
      posted at once, when CcDeferWrite has no memory for an entry. */
  datatype Step = AtTail(e: Entry) | AtHead(e: Entry) | LetGo(k: nat) | Grant(e: Entry, retrying: nat, now: Now) | PostAtOnce(e: Entry)

  /** Ids tell the entries of a run apart; `gone` are those released, `granted` those let in without being queued. */
  datatype State = State(queue: seq<Entry>, gone: seq<Entry>, granted: seq<Entry>)

  predicate IsFresh(es: seq<Entry>, e: Entry) {
    forall i | 0 <= i < |es| :: es[i].id != e.id
  }

  predicate Fresh(s: State, e: Entry) {
    IsFresh(s.queue, e) && IsFresh(s.gone, e) && IsFresh(s.granted, e)
  }

  predicate Possible(s: State, a: Step) {
    match a
    case AtTail(e) => Fresh(s, e)
    case AtHead(e) => Fresh(s, e)
    case LetGo(k) => k < |s.queue| && forall i | 0 <= i < k :: s.queue[i].limitModifiedPages
    case Grant(e, retrying, now) => Fresh(s, e) && CanIWrite(e.file, e.bytes, retrying, s.queue == [], now)
    case PostAtOnce(e) => Fresh(s, e)
  }

  function After(s: State, a: Step): State
    requires Possible(s, a)
  {
    match a
    case AtTail(e) => s.(queue := s.queue + [e])
    case AtHead(e) => s.(queue := [e] + s.queue)
    case LetGo(k) => s.(queue := s.queue[..k] + s.queue[k + 1..], gone := s.gone + [s.queue[k]])
    case Grant(e, _, _) => s.(granted := s.granted + [e])
    case PostAtOnce(e) => s.(gone := s.gone + [e])
  }

  /** The passes of CcPostDeferredWrites are such steps. */
  lemma ReleaseIsAStep(s: State, k: nat, total: nat, tests: seq<Test>)
    requires Releases(s.queue, k, total, tests)
    ensures Possible(s, LetGo(k))
  {
  }

  /** The steps lead from `a` to `b`. */
  predicate Leads(a: State, steps: seq<Step>, b: State)
    decreases |steps|
  {
    if steps == [] then a == b else Possible(a, steps[0]) && Leads(After(a, steps[0]), steps[1..], b)
  }

  lemma NoSteps(s: State)
    ensures Leads(s, [], s)
  {
  }

  lemma {:induction false} LeadsJoin(a: State, first: seq<Step>, b: State, more: seq<Step>, c: State)
    requires Leads(a, first, b) && Leads(b, more, c)
    ensures Leads(a, first + more, c)
    decreases |first|
  {
    if first == [] {
      assert first + more == more;
    } else {
      LeadsJoin(After(a, first[0]), first[1..], b, more, c);
      assert (first + more)[1..] == first[1..] + more;
    }
  }

  lemma LeadsMore(a: State, steps: seq<Step>, b: State, step: Step)
    requires Leads(a, steps, b) && Possible(b, step)
    ensures Leads(a, steps + [step], After(b, step))
  {
    assert [step][1..] == [];
    LeadsJoin(a, steps, b, [step], After(b, step));
  }

  datatype Run = Run(steps: seq<Step>, states: seq<State>)

  predicate IsRun(r: Run) {
    && |r.states| == |r.steps| + 1 && r.states[0] == State([], [], [])
    && forall i {:trigger r.steps[i]} | 0 <= i < |r.steps| :: Possible(r.states[i], r.steps[i]) && r.states[i + 1] == After(r.states[i], r.steps[i])
  }

  /** No two entries, waiting, released or let in, are the same. */
  predicate Unique(s: State) {
    && (forall i, j | 0 <= i < j < |s.queue| :: s.queue[i].id != s.queue[j].id)
    && (forall i, j | 0 <= i < j < |s.gone| :: s.gone[i].id != s.gone[j].id)
    && (forall i, j | 0 <= i < j < |s.granted| :: s.granted[i].id != s.granted[j].id)
    && (forall i, j | 0 <= i < |s.queue| && 0 <= j < |s.gone| :: s.queue[i].id != s.gone[j].id)
    && (forall i, j | 0 <= i < |s.queue| && 0 <= j < |s.granted| :: s.queue[i].id != s.granted[j].id)
    && (forall i, j | 0 <= i < |s.gone| && 0 <= j < |s.granted| :: s.gone[i].id != s.granted[j].id)
  }

  lemma StepKeepsUnique(s: State, a: Step)
    requires Unique(s) && Possible(s, a)
    ensures Unique(After(s, a))
  {
    var s' := After(s, a);
    if a.LetGo? {
      forall i | 0 <= i < |s'.queue| ensures s'.queue[i] == s.queue[Skip(a.k, i)] {
      }
    }
  }

  /** The write that a step brings to the throttle and that is not let in. */
  function Brought(step: Step): multiset<Entry> {
    if step.LetGo? || step.Grant? then multiset{} else multiset{step.e}
  }

  function Queued(steps: seq<Step>): multiset<Entry> {
    if steps == [] then multiset{} else Queued(steps[..|steps| - 1]) + Brought(steps[|steps| - 1])
  }

  /** Released exactly once, or still waiting: in every run, what was deferred is what waits and what was released,
      and nothing occurs twice. */
  lemma {:induction false} ReleasedOnce(r: Run, i: nat)
    requires IsRun(r) && i < |r.states|
    ensures Unique(r.states[i])
    ensures Queued(r.steps[..i]) == multiset(r.states[i].queue) + multiset(r.states[i].gone)
  {
    if i > 0 {
      ReleasedOnce(r, i - 1);
      var before, step := r.states[i - 1], r.steps[i - 1];
      assert Possible(before, step) && r.states[i] == After(before, step);
      hide IsRun, Unique, Possible, After, Brought;
      StepKeepsUnique(before, step);
      StepConserves(before, step);
      assert r.steps[..i][..i - 1] == r.steps[..i - 1];
    }
  }

  lemma StepConserves(s: State, a: Step)
    requires Possible(s, a)
    ensures var s' := After(s, a);
            multiset(s'.queue) + multiset(s'.gone) ==
              multiset(s.queue) + multiset(s.gone) + Brought(a)
  {
    if a.LetGo? { OneLess(s.queue, a.k); }
  }

  /** `a` waits nowhere behind `b`. */
  predicate InTurn(s: State, a: Entry, b: Entry) {
    forall i, j | 0 <= i < |s.queue| && 0 <= j < |s.queue| && s.queue[i] == a && s.queue[j] == b :: i < j
  }

  predicate Known(s: State, e: Entry) {
    e in s.queue || e in s.gone
  }

  lemma StepKeepsTurn(s: State, step: Step, a: Entry, b: Entry)
    requires Unique(s) && Possible(s, step) && Known(s, a) && Known(s, b) && InTurn(s, a, b)
    ensures var s' := After(s, step); Known(s', a) && Known(s', b) && InTurn(s', a, b)
  {
    StaysKnown(s, step, a);
    StaysKnown(s, step, b);
    match step
    case AtTail(e) => TurnAtTail(s, e, a, b);
    case AtHead(e) => TurnAtHead(s, e, a, b);
    case LetGo(k) => TurnLetGo(s, k, a, b);
    case Grant(_, _, _) =>
    case PostAtOnce(_) =>
  }

  lemma TurnAtTail(s: State, e: Entry, a: Entry, b: Entry)
    requires Fresh(s, e) && Known(s, a) && Known(s, b) && InTurn(s, a, b)
    ensures InTurn(s.(queue := s.queue + [e]), a, b)
  {
  }

  lemma TurnAtHead(s: State, e: Entry, a: Entry, b: Entry)
    requires Fresh(s, e) && Known(s, a) && Known(s, b) && InTurn(s, a, b)
    ensures InTurn(s.(queue := [e] + s.queue), a, b)
  {
    var queue := [e] + s.queue;
    assert a != e && b != e;
    hide Fresh, Known;
    assert forall i | 1 <= i < |queue| :: queue[i] == s.queue[i - 1];
  }

  lemma TurnLetGo(s: State, k: nat, a: Entry, b: Entry)
    requires k < |s.queue| && InTurn(s, a, b)
    ensures InTurn(s.(queue := s.queue[..k] + s.queue[k + 1..], gone := s.gone + [s.queue[k]]), a, b)
  {
    var queue := s.queue[..k] + s.queue[k + 1..];
    assert forall i | 0 <= i < |queue| :: queue[i] == s.queue[Skip(k, i)];
  }

  lemma StaysKnown(s: State, step: Step, a: Entry)
    requires Possible(s, step) && Known(s, a)
    ensures Known(After(s, step), a)
  {
    if step.LetGo? {
      assert s.queue == s.queue[..step.k] + [s.queue[step.k]] + s.queue[step.k + 1..];
    }
  }

  lemma {:induction false} TurnStays(r: Run, j: nat, m: nat, a: Entry, b: Entry)
    requires IsRun(r) && j <= m < |r.states| && Known(r.states[j], a) && Known(r.states[j], b) && InTurn(r.states[j], a, b)
    ensures Known(r.states[m], a) && Known(r.states[m], b) && InTurn(r.states[m], a, b)
    decreases m - j
  {
    if j < m {
      TurnStays(r, j, m - 1, a, b);
      ReleasedOnce(r, m - 1);
      StepKeepsTurn(r.states[m - 1], r.steps[m - 1], a, b);
    }
  }

  /** Ordinary writes are not overtaken: if `a` is not privately throttled and was waiting when `b` was queued at
      the tail (step `j`), then `a` has been released by the time `b` is (step `m`). */
  lemma OrdinaryIsNotOvertaken(r: Run, j: nat, m: nat, a: Entry, b: Entry)
    requires IsRun(r) && j < m < |r.steps| && r.steps[j] == AtTail(b) && a in r.states[j].queue
    requires !a.limitModifiedPages
    requires r.steps[m].LetGo? && r.states[m].queue[r.steps[m].k] == b
    ensures a in r.states[m].gone
  {
    assert r.states[j + 1] == After(r.states[j], r.steps[j]);
    var s := r.states[j + 1];
    ReleasedOnce(r, j);
    ReleasedOnce(r, j + 1);
    assert s.queue[|s.queue| - 1] == b;
    TurnStays(r, j + 1, m, a, b);
  }

  // ----- The front door --------------------------------------------------------------------------------

  /** CcCanIWrite may let a write in past waiting ones, if dirty pages and memory allow it, if and only if the write
      is exempt from throttling or its caller says that it is retrying. */
  lemma MayPassIff(file: File, bytes: nat, retrying: nat)
    ensures (exists now :: CanIWrite(file, bytes, retrying, false, now)) <==> Exempt(file, retrying) || retrying != 0
  {
    if Exempt(file, retrying) || retrying != 0 {
      assert CanIWrite(file, bytes, retrying, false, Now(0, PagesToWrite(bytes) + 1, true, 0, 0));
    }
  }

  lemma WaitsOrIsGone(r: Run, j: nat, m: nat, e: Entry)
    requires IsRun(r) && j < m < |r.states| && (r.steps[j] == AtTail(e) || r.steps[j] == AtHead(e))
    ensures Known(r.states[m], e)
  {
    assert r.states[j + 1] == After(r.states[j], r.steps[j]);
    if r.steps[j].AtTail? {
      assert r.states[j + 1].queue[|r.states[j].queue|] == e;
    } else {
      assert r.states[j + 1].queue[0] == e;
    }
    KnownStays(r, j + 1, m, e);
  }

  lemma {:induction false} KnownStays(r: Run, j: nat, m: nat, e: Entry)
    requires IsRun(r) && j <= m < |r.states| && Known(r.states[j], e)
    ensures Known(r.states[m], e)
    decreases m - j
  {
    if j < m {
      KnownStays(r, j, m - 1, e);
      StaysKnown(r.states[m - 1], r.steps[m - 1], e);
    }
  }

  /** A write that is asked about for the first time and is not exempt overtakes nobody at the door: when it is let
      in, every write that was ever queued before has been released, and it keeps to the limits. */
  lemma FirstTimeOvertakesNobody(r: Run, m: nat)
    requires IsRun(r) && m < |r.steps| && r.steps[m].Grant? && r.steps[m].retrying == 0 && !Exempt(r.steps[m].e.file, 0)
    ensures r.states[m].queue == []
    ensures forall j, e | 0 <= j < m && (r.steps[j] == AtTail(e) || r.steps[j] == AtHead(e)) :: e in r.states[m].gone
    ensures WithinLimits(r.steps[m].e.bytes, r.steps[m].e.file.limited, r.steps[m].now)
  {
    forall j, e | 0 <= j < m && (r.steps[j] == AtTail(e) || r.steps[j] == AtHead(e)) ensures e in r.states[m].gone {
      WaitsOrIsGone(r, j, m, e);
    }
  }
}
