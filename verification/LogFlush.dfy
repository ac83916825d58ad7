/**
 Writing pinned data: how CcAcquireByteRangeForWrite takes a run of Bcbs (its part from Scan_Bcbs on), flushes
 the log before it lets the data be written, and how the run is released. Other threads pin, unpin, dirty and
 clean Bcbs whenever the spin lock is free.
 */
module LogFlush {
  import opened CacheGlobals
  import opened BcbList

  const MAX_WRITE_BEHIND := 0x1_0000
  const FIRST_LEVEL := 0x200_0000                  // VACB_SIZE_OF_FIRST_LEVEL

  /** The log file, through the stream's FlushToLsnRoutine. */
  class Log {
    var flushedTo: int

    method FlushToLsn(lsn: int, takes: bool) returns (ok: bool)
      modifies this
      ensures flushedTo >= old(flushedTo) && (ok ==> flushedTo >= lsn) && ok == takes
    {
      ok := takes;
      if ok && flushedTo < lsn { flushedTo := lsn; }
    }
  }

  /** A Bcb that the flush has pinned. While it also owns the resource, nobody else changes the data. */
  datatype Claim = Claim(bcb: Bcb, owned: bool)

  predicate Satisfies(b: Bcb, c: Claim) {
    && b.fileOffset == c.bcb.fileOffset && b.byteLength == c.bcb.byteLength && b.beyondLastByte == c.bcb.beyondLastByte
    && b.pinCount > 0
    && (c.owned ==> b.dirty && b.newestLsn == c.bcb.newestLsn && b.oldestLsn == c.bcb.oldestLsn)
  }

  predicate Kept(bcbs: seq<Bcb>, c: Claim) {
    exists i | 0 <= i < |bcbs| :: Satisfies(bcbs[i], c)
  }

  predicate AllKept(bcbs: seq<Bcb>, claims: seq<Claim>) {
    forall j | 0 <= j < |claims| :: Kept(bcbs, claims[j])
  }

  lemma KeptUnderUpdate(bcbs: seq<Bcb>, k: nat, b: Bcb, claims: seq<Claim>)
    requires AllKept(bcbs, claims) && k < |bcbs|
    requires forall j | 0 <= j < |claims| && Satisfies(bcbs[k], claims[j]) :: Satisfies(b, claims[j])
    ensures AllKept(bcbs[k := b], claims)
  {
    var bcbs' := bcbs[k := b];
    forall j | 0 <= j < |claims| ensures Kept(bcbs', claims[j]) {
      var i :| 0 <= i < |bcbs| && Satisfies(bcbs[i], claims[j]);
      assert Satisfies(bcbs'[i], claims[j]);
    }
  }

  lemma KeptUnderInsertion(bcbs: seq<Bcb>, k: nat, b: Bcb, claims: seq<Claim>)
    requires AllKept(bcbs, claims) && k <= |bcbs|
    ensures AllKept(Inserted(bcbs, k, b), claims)
  {
    var bcbs' := Inserted(bcbs, k, b);
    forall j | 0 <= j < |claims| ensures Kept(bcbs', claims[j]) {
      var i :| 0 <= i < |bcbs| && Satisfies(bcbs[i], claims[j]);
      assert bcbs'[if i < k then i else i + 1] == bcbs[i];
    }
  }

  lemma KeptUnderRemoval(bcbs: seq<Bcb>, k: nat, claims: seq<Claim>)
    requires AllKept(bcbs, claims) && k < |bcbs|
    requires forall j | 0 <= j < |claims| :: !Satisfies(bcbs[k], claims[j])
    ensures AllKept(Removed(bcbs, k), claims)
  {
    var bcbs' := Removed(bcbs, k);
    forall j | 0 <= j < |claims| ensures Kept(bcbs', claims[j]) {
      var i :| 0 <= i < |bcbs| && Satisfies(bcbs[i], claims[j]);
      assert bcbs'[if i < k then i else i - 1] == bcbs[i];
    }
  }

  /** The last pin on a claimed Bcb is the flush's own. */
  predicate MayUnpin(b: Bcb, claims: seq<Claim>) {
    b.pinCount > 1 || (b.pinCount == 1 && forall j | 0 <= j < |claims| :: claims[j].bcb.fileOffset != b.fileOffset)
  }

  predicate MayTouch(b: Bcb, claims: seq<Claim>) {
    forall j | 0 <= j < |claims| && claims[j].owned :: claims[j].bcb.fileOffset != b.fileOffset
  }

  lemma KeptUnderDrop(bcbs: seq<Bcb>, k: nat, action: UnmapAction, claims: seq<Claim>)
    requires AllKept(bcbs, claims) && k < |bcbs| && InUse(bcbs)
    requires if action.SET_CLEAN? then MayTouch(bcbs[k], claims) else MayUnpin(bcbs[k], claims)
    ensures AllKept(Dropped(bcbs, k, Released(bcbs[k], action)), claims)
  {
    var b := Released(bcbs[k], action);
    if b.pinCount != 0 {
      KeptUnderUpdate(bcbs, k, b, claims);
    } else if b.dirty {
      KeptUnderUpdate(bcbs, k, b.(mapped := false), claims);
    } else {
      KeptUnderRemoval(bcbs, k, claims);
    }
  }

  /** One step of another thread. */
  method OtherStep(s: BcbStream, claims: seq<Claim>)
    requires s.Valid() && AllKept(s.bcbs, claims)
    modifies s`bcbs, s`dirtyPages, s`onDirtyList, s`validDataGoal, s.cc
    ensures s.Valid() && AllKept(s.bcbs, claims)
  {
    hide ListOk, InUse, DirtyPagesOf, AllKept, Covered, Sound, Dropped, Dirtied, NewBcb, Bound;
    var which: nat, k: nat, r: PinRequest, yes: bool := *, *, *, *;
    var action: UnmapAction, lsn: Option<int> := *, *;
    if which == 0 {
      if 0 <= r.offset && 0 <= r.length < FOUR_GB && Sound(s.bcbs, r) {
        ghost var was := s.bcbs;
        var step := s.FindOrAllocate(r, yes, true);
        if step.Pinned? { KeptUnderPin(was, r, step.k, claims); }
      }
    } else if k < |s.bcbs| {
      if which == 1 && (if action.SET_CLEAN? then MayTouch(s.bcbs[k], claims) else MayUnpin(s.bcbs[k], claims)) {
        KeptUnderDrop(s.bcbs, k, action, claims);
        s.UnpinFileData(k, action);
      } else if which == 2 && MayTouch(s.bcbs[k], claims) && (lsn.Some? ==> lsn.value > 0) {
        KeptUnderDirtying(s.bcbs, k, lsn, claims);
        s.SetDirtyOne(k, lsn);
      }
    }
  }

  lemma KeptUnderPin(bcbs: seq<Bcb>, r: PinRequest, k: nat, claims: seq<Claim>)
    requires AllKept(bcbs, claims) && StopsAt(bcbs, r.offset, k) && (Covered(bcbs, r.offset) ==> k < |bcbs|)
    ensures AllKept(AfterPin(bcbs, r, k), claims)
    ensures Sound(bcbs, r) ==> Covered(bcbs, r.offset) || Fits(bcbs, k, r)
  {
    if Covered(bcbs, r.offset) {
      KeptUnderUpdate(bcbs, k, bcbs[k].(pinCount := bcbs[k].pinCount + 1), claims);
    } else {
      KeptUnderInsertion(bcbs, k, NewBcb(r.offset, Bound(bcbs, k, r.offset, r.length)), claims);
    }
  }

  lemma KeptUnderDirtying(bcbs: seq<Bcb>, k: nat, lsn: Option<int>, claims: seq<Claim>)
    requires AllKept(bcbs, claims) && ListOk(bcbs) && k < |bcbs| && MayTouch(bcbs[k], claims)
    requires lsn.Some? ==> lsn.value > 0
    ensures AllKept(bcbs[k := Dirtied(bcbs[k], lsn)], claims)
  {
    LsnsAt(bcbs, k);
    DirtiedEncloses(bcbs[k], lsn);
    KeptUnderUpdate(bcbs, k, Dirtied(bcbs[k], lsn), claims);
  }

  /** What other threads do while the lock is free: at most `turns` steps, of which `left` remain. */
  method Others(s: BcbStream, claims: seq<Claim>, turns: nat) returns (left: nat)
    requires s.Valid() && AllKept(s.bcbs, claims)
    modifies s`bcbs, s`dirtyPages, s`onDirtyList, s`validDataGoal, s.cc
    ensures s.Valid() && AllKept(s.bcbs, claims) && left <= turns
    ensures left == turns ==> s.bcbs == old(s.bcbs)
  {
    hide ListOk, InUse, DirtyPagesOf, AllKept;
    left := turns;
    var more := *;
    while more && left > 0
      invariant s.Valid() && AllKept(s.bcbs, claims) && left <= turns
      invariant left == turns ==> s.bcbs == old(s.bcbs)
      decreases left
    {
      OtherStep(s, claims);
      left := left - 1;
      more := *;
    }
  }

  // ----- Taking one Bcb ------------------------------------------------------------------------------

  predicate Owns(s: BcbStream) {
    s.metadata && s.writeBehind
  }

  function IndexOf(bcbs: seq<Bcb>, offset: int): (k: nat)
    requires exists i | 0 <= i < |bcbs| :: bcbs[i].fileOffset == offset
    ensures k < |bcbs| && bcbs[k].fileOffset == offset
    decreases |bcbs|
  {
    if bcbs[0].fileOffset == offset then 0
    else
      assert forall i | 1 <= i < |bcbs| :: bcbs[1..][i - 1] == bcbs[i];
      1 + IndexOf(bcbs[1..], offset)
  }

  lemma OneIndex(bcbs: seq<Bcb>, i: nat, j: nat)
    requires ListOk(bcbs) && i < |bcbs| && j < |bcbs| && bcbs[i].fileOffset == bcbs[j].fileOffset
    ensures i == j
  {
    assert BcbOk(bcbs[i]) && BcbOk(bcbs[j]);
  }

  lemma WhereKept(bcbs: seq<Bcb>, c: Claim)
    requires ListOk(bcbs) && Kept(bcbs, c)
    ensures exists i | 0 <= i < |bcbs| :: bcbs[i].fileOffset == c.bcb.fileOffset
    ensures Satisfies(bcbs[IndexOf(bcbs, c.bcb.fileOffset)], c)
  {
    var i :| 0 <= i < |bcbs| && Satisfies(bcbs[i], c);
    OneIndex(bcbs, i, IndexOf(bcbs, c.bcb.fileOffset));
  }

  method AddPin(s: BcbStream, k: nat)
    requires s.Valid() && k < |s.bcbs|
    modifies s`bcbs
    ensures s.Valid() && s.bcbs == old(s.bcbs)[k := old(s.bcbs)[k].(pinCount := old(s.bcbs)[k].pinCount + 1)]
  {
    hide ListOk, DirtyPagesOf;
    var b := s.bcbs[k].(pinCount := s.bcbs[k].pinCount + 1);
    LsnsAt(s.bcbs, k);
    UpdateKeepsList(s.bcbs, k, b);
    DirtyPagesUpdate(s.bcbs, k, b);
    s.bcbs := s.bcbs[k := b];
  }

  datatype Step = Joined | CouldNotAcquire | NoLongerDirty

  /** What taking does to a Bcb: a metadata Bcb is pinned and stays dirty, another is set clean as well. */
  function Taken(b: Bcb, owned: bool): Bcb {
    if owned then b.(pinCount := b.pinCount + 1) else Released(b.(pinCount := b.pinCount + 1), SET_CLEAN)
  }

  predicate Apart(run: seq<Claim>, b: Bcb) {
    forall j | 0 <= j < |run| :: run[j].bcb.fileOffset != b.fileOffset
  }

  lemma KeptAlso(bcbs: seq<Bcb>, run: seq<Claim>, c: Claim, k: nat)
    requires AllKept(bcbs, run) && k < |bcbs| && Satisfies(bcbs[k], c)
    ensures AllKept(bcbs, run + [c])
  {
    assert Kept(bcbs, c);
  }

  lemma KeptBefore(bcbs: seq<Bcb>, run: seq<Claim>, c: Claim)
    requires AllKept(bcbs, run + [c])
    ensures AllKept(bcbs, run) && Kept(bcbs, c)
  {
    var all := run + [c];
    assert all[|run|] == c && forall j | 0 <= j < |run| :: all[j] == run[j];
  }

  lemma PinnedKeeps(bcbs: seq<Bcb>, run: seq<Claim>, k: nat)
    requires AllKept(bcbs, run) && k < |bcbs|
    ensures AllKept(bcbs[k := bcbs[k].(pinCount := bcbs[k].pinCount + 1)], run + [Claim(bcbs[k], false)])
  {
    var b := bcbs[k].(pinCount := bcbs[k].pinCount + 1);
    KeptUnderUpdate(bcbs, k, b, run);
    KeptAlso(bcbs[k := b], run, Claim(bcbs[k], false), k);
  }

  /** From PinCount += 1 on: pins the Bcb at `k` and acquires it, waiting only if it is the first. */
  method TakeOwned(s: BcbStream, k: nat, run: seq<Claim>, free: int -> bool, turns: nat) returns (step: Step, at: nat, left: nat)
    requires s.Valid() && AllKept(s.bcbs, run) && k < |s.bcbs| && s.bcbs[k].dirty && Apart(run, s.bcbs[k])
    modifies s`bcbs, s`dirtyPages, s`onDirtyList, s`validDataGoal, s.cc
    ensures s.Valid() && AllKept(s.bcbs, run) && left <= turns
    ensures step.Joined? ==> at < |s.bcbs| && AllKept(s.bcbs, run + [Claim(s.bcbs[at], true)])
    ensures step.Joined? ==> Satisfies(s.bcbs[at], Claim(old(s.bcbs)[k], false))
    ensures step.CouldNotAcquire? ==> run != [] && !free(old(s.bcbs)[k].fileOffset)
    ensures step.Joined? ==> run == [] || free(old(s.bcbs)[k].fileOffset)
    ensures step.NoLongerDirty? ==> left < turns
    ensures left == turns && step.Joined? ==> at == k && s.bcbs == old(s.bcbs)[k := Taken(old(s.bcbs)[k], true)]
    ensures left == turns && !step.Joined? ==> s.bcbs == old(s.bcbs)
  {
    hide ListOk, InUse, DirtyPagesOf, AllKept, Dropped;
    var c := Claim(s.bcbs[k], false);
    PinnedKeeps(s.bcbs, run, k);
    AddPin(s, k);
    var acquired := run == [] || free(s.bcbs[k].fileOffset);
    ghost var pinned := s.bcbs;
    left := Others(s, run + [c], turns);
    KeptBefore(s.bcbs, run, c);
    WhereKept(s.bcbs, c);
    at := IndexOf(s.bcbs, c.bcb.fileOffset);
    if left == turns { OneIndex(s.bcbs, at, k); }
    if acquired && s.bcbs[at].dirty {
      KeptAlso(s.bcbs, run, Claim(s.bcbs[at], true), at);
      return Joined, at, left;
    }
    KeptUnderDrop(s.bcbs, at, UNPIN, run);
    if left == turns { UnpinGivesBack(old(s.bcbs), k); }
    s.UnpinFileData(at, UNPIN);
    step := if acquired then NoLongerDirty else CouldNotAcquire;
  }

  lemma UnpinGivesBack(bcbs: seq<Bcb>, k: nat)
    requires InUse(bcbs) && k < |bcbs| && bcbs[k].dirty
    ensures var now := bcbs[k := bcbs[k].(pinCount := bcbs[k].pinCount + 1)];
            Dropped(now, k, Released(now[k], UNPIN)) == bcbs
  {
  }

  /** On other streams the Bcb is set clean before it is written, and nobody is kept from changing it. */
  method TakeShared(s: BcbStream, k: nat, run: seq<Claim>, turns: nat) returns (at: nat, left: nat)
    requires s.Valid() && AllKept(s.bcbs, run) && k < |s.bcbs| && s.bcbs[k].dirty
    requires forall j | 0 <= j < |run| :: !run[j].owned
    modifies s`bcbs, s`dirtyPages, s`onDirtyList, s`validDataGoal, s.cc
    ensures s.Valid() && left <= turns && at < |s.bcbs| && AllKept(s.bcbs, run + [Claim(s.bcbs[at], false)])
    ensures Satisfies(s.bcbs[at], Claim(old(s.bcbs)[k], false))
    ensures left == turns ==> at == k && s.bcbs == old(s.bcbs)[k := Taken(old(s.bcbs)[k], false)]
  {
    hide ListOk, InUse, DirtyPagesOf, AllKept;
    var c := Claim(s.bcbs[k], false);
    PinnedKeeps(s.bcbs, run, k);
    AddPin(s, k);
    KeptUnderDrop(s.bcbs, k, SET_CLEAN, run + [c]);
    s.UnpinFileData(k, SET_CLEAN);
    left := Others(s, run + [c], turns);
    KeptBefore(s.bcbs, run, c);
    WhereKept(s.bcbs, c);
    at := IndexOf(s.bcbs, c.bcb.fileOffset);
    if left == turns { OneIndex(s.bcbs, at, k); }
    KeptAlso(s.bcbs, run, Claim(s.bcbs[at], false), at);
  }

  lemma AtSamePlace(now: Bcb, was: Bcb)
    requires Satisfies(now, Claim(was, false))
    ensures now.fileOffset == was.fileOffset && now.byteLength == was.byteLength && now.beyondLastByte == was.beyondLastByte
  {
  }

  method TakeNext(s: BcbStream, k: nat, run: seq<Claim>, free: int -> bool, turns: nat) returns (step: Step, at: nat, left: nat)
    requires s.Valid() && AllKept(s.bcbs, run) && k < |s.bcbs| && s.bcbs[k].dirty && Apart(run, s.bcbs[k])
    requires !Owns(s) ==> forall j | 0 <= j < |run| :: !run[j].owned
    modifies s`bcbs, s`dirtyPages, s`onDirtyList, s`validDataGoal, s.cc
    ensures s.Valid() && AllKept(s.bcbs, run) && left <= turns
    ensures step.Joined? ==> at < |s.bcbs| && AllKept(s.bcbs, run + [Claim(s.bcbs[at], Owns(s))])
    ensures step.Joined? ==> s.bcbs[at].fileOffset == old(s.bcbs)[k].fileOffset && s.bcbs[at].byteLength == old(s.bcbs)[k].byteLength
    ensures step.CouldNotAcquire? ==> run != [] && Owns(s) && !free(old(s.bcbs)[k].fileOffset)
    ensures step.Joined? && Owns(s) ==> run == [] || free(s.bcbs[at].fileOffset)
    ensures step.NoLongerDirty? ==> left < turns
    ensures left == turns && step.Joined? ==> at == k && s.bcbs == old(s.bcbs)[k := Taken(old(s.bcbs)[k], Owns(s))]
    ensures left == turns && !step.Joined? ==> s.bcbs == old(s.bcbs)
  {
    hide ListOk, InUse, DirtyPagesOf, AllKept, Taken, Satisfies;
    ghost var b := s.bcbs[k];
    if Owns(s) {
      step, at, left := TakeOwned(s, k, run, free, turns);
    } else {
      at, left := TakeShared(s, k, run, turns);
      KeptBefore(s.bcbs, run, Claim(s.bcbs[at], false));
      step := Joined;
    }
    if step.Joined? { AtSamePlace(s.bcbs[at], b); }
  }

  // ----- Taking a run --------------------------------------------------------------------------------

  /** What is asked for: a target range, or (the lazy writer) what lies beyond the last flush. */
  datatype Wish = Wish(target: Option<int>, targetLength: nat, beyondLastFlush: int)

  predicate Candidate(b: Bcb, w: Wish) {
    b.dirty && if w.target.Some? then w.target.value < b.beyondLastByte else w.beyondLastFlush <= b.fileOffset
  }

  predicate TooHigh(b: Bcb, w: Wish) {
    w.target.Some? && w.target.value + w.targetLength <= b.fileOffset
  }

  /** A Bcb may be appended to the run from `start` to `end`. */
  predicate Extends(b: Bcb, start: int, end: int) {
    && b.dirty && b.fileOffset == end && end - start + b.byteLength <= MAX_WRITE_BEHIND && b.pinCount == 0
    && b.fileOffset % FIRST_LEVEL != 0
  }

  /** The Bcb would have been a member: dirty, where the run ends, pinned by nobody, within the largest write, in
      the same Vacb level, and not beyond the target. */
  predicate CouldFollow(b: Bcb, start: int, end: int, target: Option<int>, targetLength: nat) {
    && b.dirty && b.pinCount == 0 && b.fileOffset == end && end + b.byteLength <= start + 0x1_0000
    && b.fileOffset % 0x200_0000 != 0 && (target.Some? ==> b.fileOffset < target.value + targetLength)
  }

  /** Nobody had pinned any member but the first. */
  predicate LeavesPinnedOut(bcbs: seq<Bcb>, top: int, count: nat) {
    forall i | top <= i < top + count - 1 :: 0 <= i < |bcbs| && bcbs[i].pinCount == 0
  }

  /** Of the dirty Bcbs at or beyond `from` the one at `offset` is the lowest. */
  ghost predicate IsLowestDirty(bcbs: seq<Bcb>, from: int, offset: int) {
    && (exists i | 0 <= i < |bcbs| :: bcbs[i].dirty && bcbs[i].fileOffset == offset >= from)
    && (forall i | 0 <= i < |bcbs| && bcbs[i].dirty && bcbs[i].fileOffset >= from :: offset <= bcbs[i].fileOffset)
  }

  ghost predicate SomeDirty(bcbs: seq<Bcb>, from: int) {
    exists i | 0 <= i < |bcbs| :: bcbs[i].dirty && bcbs[i].fileOffset >= from
  }

  /** Where the lazy writer's run starts, and whether there is one: at the lowest dirty Bcb not below `beyond`, where
      the last flush ended, or if there is none, at the lowest of all. */
  ghost predicate LazyStart(bcbs: seq<Bcb>, beyond: int, any: bool, offset: int) {
    && (any <==> SomeDirty(bcbs, 0))
    && (any ==> IsLowestDirty(bcbs, if SomeDirty(bcbs, beyond) then beyond else 0, offset))
  }

  /** The same for an explicit target: at the lowest dirty Bcb that reaches beyond its start, if that one begins
      before its end. */
  ghost predicate TargetStart(bcbs: seq<Bcb>, target: int, targetLength: nat, any: bool, offset: int) {
    && (any <==> exists i | 0 <= i < |bcbs| ::
          bcbs[i].dirty && target < bcbs[i].beyondLastByte && bcbs[i].fileOffset < target + targetLength)
    && (any ==>
          && (exists i | 0 <= i < |bcbs| :: bcbs[i].dirty && target < bcbs[i].beyondLastByte && bcbs[i].fileOffset == offset)
          && (forall i | 0 <= i < |bcbs| && bcbs[i].dirty && target < bcbs[i].beyondLastByte :: offset <= bcbs[i].fileOffset))
  }

  predicate Chain(run: seq<Claim>) {
    forall j | 0 <= j < |run| - 1 :: run[j].bcb.beyondLastByte == run[j + 1].bcb.fileOffset
  }

  /** The run is one stretch of the file, from `start` to `end`. */
  predicate RunOk(run: seq<Claim>, start: int, end: int, owned: bool) {
    && (forall j | 0 <= j < |run| :: start <= run[j].bcb.fileOffset < run[j].bcb.beyondLastByte <= end && run[j].owned == owned)
    && Chain(run)
    && if run == [] then start == end else run[0].bcb.fileOffset == start && run[|run| - 1].bcb.beyondLastByte == end
  }

  lemma RunGrows(run: seq<Claim>, start: int, end: int, c: Claim, bcbs: seq<Bcb>, at: nat)
    requires RunOk(run, start, end, c.owned) && ListOk(bcbs) && at < |bcbs| && bcbs[at] == c.bcb
    requires run != [] ==> c.bcb.fileOffset == end
    ensures RunOk(run + [c], if run == [] then c.bcb.fileOffset else start, c.bcb.beyondLastByte, c.owned)
    ensures c.bcb.beyondLastByte == c.bcb.fileOffset + c.bcb.byteLength
  {
    assert BcbOk(bcbs[at]);
  }

  /** No member of the run has a newer Lsn. */
  predicate UpTo(run: seq<Claim>, lsn: int) {
    forall j | 0 <= j < |run| :: run[j].bcb.newestLsn <= lsn
  }

  lemma UpToMore(run: seq<Claim>, lsn: int, c: Claim)
    requires UpTo(run, lsn)
    ensures UpTo(run + [c], if c.bcb.newestLsn > lsn then c.bcb.newestLsn else lsn)
  {
  }

  /** The list descends towards its tail: what is above a Bcb beyond the target is beyond it too. */
  lemma AboveIsTooHigh(bcbs: seq<Bcb>, k: nat, w: Wish)
    requires ListOk(bcbs) && k < |bcbs| && TooHigh(bcbs[k], w)
    ensures forall i | 0 <= i <= k :: TooHigh(bcbs[i], w)
  {
    assert BcbOk(bcbs[k]);
  }

  lemma RunIsApart(run: seq<Claim>, start: int, end: int, owned: bool, b: Bcb)
    requires RunOk(run, start, end, owned) && (run != [] ==> b.fileOffset == end)
    ensures Apart(run, b) && (!owned ==> forall j | 0 <= j < |run| :: !run[j].owned)
  {
  }

  /** With nobody in between, the run is a piece of the list as it was, taken entry by entry. */
  ghost predicate TookPiece(was: seq<Bcb>, now: seq<Bcb>, top: int, count: nat, owned: bool) {
    && |now| == |was| && 0 <= top && top + count <= |was|
    && forall i | 0 <= i < |was| :: now[i] == if top <= i < top + count then Taken(was[i], owned) else was[i]
  }

  /** ... and it starts at the first candidate, in file order. */
  ghost predicate TookFirst(was: seq<Bcb>, top: int, count: nat, w: Wish, from: int) {
    && -1 <= from < |was|
    && (forall i | top + count <= i <= from && i < |was| && 0 <= i :: !Candidate(was[i], w))
    && (count > 0 ==> 0 <= top + count - 1 < |was| && Candidate(was[top + count - 1], w))
  }

  /** What the scan has collected: a run within the size limit, and the newest Lsn of it that matters. */
  ghost predicate Collected(run: seq<Claim>, start: int, end: int, newest: int, logged: bool, owned: bool) {
    && RunOk(run, start, end, owned) && (|run| > 1 ==> end - start <= MAX_WRITE_BEHIND)
    && newest >= 0 && (if logged then UpTo(run, newest) else newest == 0)
  }

  lemma NoRun(bcbs: seq<Bcb>, logged: bool, owned: bool)
    ensures Collected([], 0, 0, 0, logged, owned) && AllKept(bcbs, [])
  {
  }

  lemma CollectedIs(run: seq<Claim>, start: int, end: int, newest: int, logged: bool, owned: bool)
    requires Collected(run, start, end, newest, logged, owned)
    ensures RunOk(run, start, end, owned) && (|run| > 1 ==> end - start <= MAX_WRITE_BEHIND)
    ensures newest >= 0 && (if logged then UpTo(run, newest) else newest == 0)
  {
  }

  lemma CollectMore(run: seq<Claim>, start: int, end: int, newest: int, logged: bool, c: Claim, bcbs: seq<Bcb>, at: nat)
    requires Collected(run, start, end, newest, logged, c.owned) && ListOk(bcbs) && at < |bcbs| && bcbs[at] == c.bcb
    requires run != [] ==> c.bcb.fileOffset == end && end - start + c.bcb.byteLength <= MAX_WRITE_BEHIND
    ensures Collected(run + [c], if run == [] then c.bcb.fileOffset else start, c.bcb.beyondLastByte,
                      if logged && c.bcb.newestLsn > newest then c.bcb.newestLsn else newest, logged, c.owned)
  {
    hide RunOk, UpTo, ListOk;
    RunGrows(run, start, end, c, bcbs, at);
    if logged { UpToMore(run, newest, c); }
  }

  /** A flush that owns what it writes waits for the resource of the first member only: those of the others were
      free. */
  ghost predicate WaitsOnce(run: seq<Claim>, owned: bool, free: int -> bool) {
    owned ==> forall j | 1 <= j < |run| :: free(run[j].bcb.fileOffset)
  }

  lemma WaitsOnceMore(run: seq<Claim>, c: Claim, owned: bool, free: int -> bool)
    requires WaitsOnce(run, owned, free) && (owned ==> run == [] || free(c.bcb.fileOffset))
    ensures WaitsOnce(run + [c], owned, free)
  {
  }

  /** The Bcb in front of the run could not have joined it, or its resource was taken. */
  ghost predicate GoesNoFurther(was: seq<Bcb>, top: int, start: int, end: int, target: Option<int>, targetLength: nat,
                                owned: bool, free: int -> bool) {
    0 <= top <= |was| &&
    (top == 0 || !CouldFollow(was[top - 1], start, end, target, targetLength) || (owned && !free(was[top - 1].fileOffset)))
  }

  /** Takes the Bcb at `k` and adds it to the run. */
  method Collect(s: BcbStream, k: nat, run: seq<Claim>, start: int, end: int, newest: int, logged: bool, free: int -> bool, turns: nat)
    returns (step: Step, at: nat, run': seq<Claim>, start': int, end': int, newest': int, left: nat)
    requires s.Valid() && AllKept(s.bcbs, run) && k < |s.bcbs| && s.bcbs[k].dirty && Collected(run, start, end, newest, logged, Owns(s))
    requires run != [] ==> s.bcbs[k].fileOffset == end && end - start + s.bcbs[k].byteLength <= MAX_WRITE_BEHIND
    modifies s`bcbs, s`dirtyPages, s`onDirtyList, s`validDataGoal, s.cc
    ensures s.Valid() && AllKept(s.bcbs, run') && Collected(run', start', end', newest', logged, Owns(s)) && left <= turns
    ensures WaitsOnce(run, Owns(s), free) ==> WaitsOnce(run', Owns(s), free)
    ensures step.Joined? ==> at < |s.bcbs| && run' == run + [Claim(s.bcbs[at], Owns(s))]
    ensures step.Joined? ==> newest' == if logged && s.bcbs[at].newestLsn > newest then s.bcbs[at].newestLsn else newest
    ensures !step.Joined? ==> run' == run && newest' == newest
    ensures step.CouldNotAcquire? ==> run != [] && Owns(s) && !free(old(s.bcbs)[k].fileOffset)
    ensures step.NoLongerDirty? ==> left < turns
    ensures left == turns && step.Joined? ==> at == k && s.bcbs == old(s.bcbs)[k := Taken(old(s.bcbs)[k], Owns(s))]
    ensures left == turns && !step.Joined? ==> s.bcbs == old(s.bcbs)
  {
    hide ListOk, InUse, DirtyPagesOf, AllKept, RunOk, Taken, Satisfies, UpTo, Apart, Collected, Owns, WaitsOnce;
    CollectedIs(run, start, end, newest, logged, Owns(s));
    RunIsApart(run, start, end, Owns(s), s.bcbs[k]);
    step, at, left := TakeNext(s, k, run, free, turns);
    run', start', end', newest' := run, start, end, newest;
    if step.Joined? {
      var c := Claim(s.bcbs[at], Owns(s));
      if WaitsOnce(run, Owns(s), free) { WaitsOnceMore(run, c, Owns(s), free); }
      CollectMore(run, start, end, newest, logged, c, s.bcbs, at);
      start' := if run == [] then c.bcb.fileOffset else start;
      end', run' := c.bcb.beyondLastByte, run + [c];
      if logged && c.bcb.newestLsn > newest { newest' := c.bcb.newestLsn; }
    }
  }

  method ScanBcbs(s: BcbStream, w: Wish, from: int, logged: bool, free: int -> bool, turns: nat)
    returns (run: seq<Claim>, start: int, end: int, newest: int, left: nat, ghost top: int)
    requires s.Valid() && -1 <= from < |s.bcbs|
    modifies s`bcbs, s`dirtyPages, s`onDirtyList, s`validDataGoal, s.cc
    ensures s.Valid() && RunOk(run, start, end, Owns(s)) && AllKept(s.bcbs, run) && left <= turns
    ensures |run| > 1 ==> end - start <= MAX_WRITE_BEHIND
    ensures newest >= 0 && (if logged then UpTo(run, newest) else newest == 0)
    ensures left == turns && !Owns(s) ==> newest == 0
    ensures left == turns ==> TookPiece(old(s.bcbs), s.bcbs, top, |run|, Owns(s)) && TookFirst(old(s.bcbs), top, |run|, w, from)
    ensures left == turns && run == [] ==> s.bcbs == old(s.bcbs)
    ensures left == turns && run != [] ==> 0 <= top < |s.bcbs| && s.bcbs[top].fileOffset == run[|run| - 1].bcb.fileOffset
    ensures left == turns && run == [] ==> forall i | 0 <= i <= from :: !Candidate(s.bcbs[i], w) || TooHigh(s.bcbs[i], w)
    ensures left == turns && run != [] ==> top + |run| <= |old(s.bcbs)| && old(s.bcbs)[top + |run| - 1].fileOffset == run[0].bcb.fileOffset
    ensures left == turns && run != [] ==> !TooHigh(old(s.bcbs)[top + |run| - 1], w)
    ensures left == turns ==> LeavesPinnedOut(old(s.bcbs), top, |run|)
    ensures left == turns && run != [] ==> GoesNoFurther(old(s.bcbs), top, start, end, w.target, w.targetLength, Owns(s), free)
    ensures WaitsOnce(run, Owns(s), free)
  {
    hide ListOk, InUse, DirtyPagesOf, AllKept, Candidate, TooHigh, RunOk, Taken, Satisfies, TookPiece, TookFirst, UpTo, Apart, Extends;
    hide Collected, Undisturbed, CouldFollow, LeavesPinnedOut, GoesNoFurther, WaitsOnce;
    var k: int := from;
    run, start, end, newest, left, top := [], 0, 0, 0, turns, k + 1;
    NoRun(s.bcbs, logged, Owns(s));
    NobodyYet(Owns(s), free);
    TookNothing(s.bcbs, k, Owns(s), w);
    while k >= 0
      invariant -1 <= k < |s.bcbs| && s.Valid() && AllKept(s.bcbs, run) && left <= turns
      invariant Collected(run, start, end, newest, logged, Owns(s)) && WaitsOnce(run, Owns(s), free)
      invariant left == turns ==> top == k + 1 && Undisturbed(old(s.bcbs), s.bcbs, top, run, newest, Owns(s), w, from)
      decreases left, k
    {
      var b := s.bcbs[k];
      if TooHigh(b, w) {
        AboveIsTooHigh(s.bcbs, k, w);
        if left == turns { StopsHere(old(s.bcbs), s.bcbs, top, run, newest, Owns(s), w, from, start, end, free); }
        break;
      }
      if run == [] && !Candidate(b, w) {
        if left == turns { SkippedOne(old(s.bcbs), s.bcbs, top, newest, Owns(s), w, from); }
        k, top := k - 1, top - 1;
        continue;
      }
      if run != [] && !Extends(b, start, end) {
        if left == turns { StopsHere(old(s.bcbs), s.bcbs, top, run, newest, Owns(s), w, from, start, end, free); }
        break;
      }
      if run == [] { CandidateIsDirty(b, w); } else { ExtendsWithin(b, start, end); }
      ghost var before, collected, was := s.bcbs, run, newest;
      var step, at: int;
      step, at, run, start, end, newest, left := Collect(s, k, run, start, end, newest, logged, free, left);
      if step.CouldNotAcquire? || (step.NoLongerDirty? && run != []) {
        if left == turns { RefusedHere(old(s.bcbs), before, top, run, newest, Owns(s), w, from, start, end, free); }
        break;
      } else if step.NoLongerDirty? {
        k := |s.bcbs| - 1;
        continue;
      }
      if left == turns { TookOneMore(old(s.bcbs), before, s.bcbs, top, collected, was, logged, Claim(s.bcbs[at], Owns(s)), w, from); }
      k, top := at - 1, top - 1;
    }
    CollectedIs(run, start, end, newest, logged, Owns(s));
    AtTheFront(old(s.bcbs), start, end, w, Owns(s), free);
    if left == turns { UndisturbedIs(old(s.bcbs), s.bcbs, top, run, newest, Owns(s), w, from); }
  }

  /** What the scan has done when nobody was in between. */
  ghost predicate Undisturbed(was: seq<Bcb>, now: seq<Bcb>, top: int, run: seq<Claim>, newest: int, owned: bool, w: Wish, from: int) {
    && TookPiece(was, now, top, |run|, owned) && TookFirst(was, top, |run|, w, from) && (!owned ==> newest == 0)
    && (run != [] ==> 0 <= top < |now| && now[top].fileOffset == run[|run| - 1].bcb.fileOffset)
    && (run != [] ==> was[top + |run| - 1].fileOffset == run[0].bcb.fileOffset && !TooHigh(was[top + |run| - 1], w))
    && LeavesPinnedOut(was, top, |run|)
  }

  lemma UndisturbedIs(was: seq<Bcb>, now: seq<Bcb>, top: int, run: seq<Claim>, newest: int, owned: bool, w: Wish, from: int)
    requires Undisturbed(was, now, top, run, newest, owned, w, from)
    ensures TookPiece(was, now, top, |run|, owned) && TookFirst(was, top, |run|, w, from) && (!owned ==> newest == 0)
    ensures run != [] ==> 0 <= top < |now| && now[top].fileOffset == run[|run| - 1].bcb.fileOffset
    ensures run != [] ==> top + |run| <= |was| && was[top + |run| - 1].fileOffset == run[0].bcb.fileOffset && !TooHigh(was[top + |run| - 1], w)
    ensures LeavesPinnedOut(was, top, |run|)
    ensures run == [] ==> now == was
    ensures run == [] && (forall i | 0 <= i < top :: TooHigh(now[i], w)) ==>
              forall i | 0 <= i <= from :: !Candidate(now[i], w) || TooHigh(now[i], w)
  {
  }

  lemma ExtendsWithin(b: Bcb, start: int, end: int)
    requires Extends(b, start, end)
    ensures b.pinCount == 0 && b.dirty && b.fileOffset == end && end - start + b.byteLength <= MAX_WRITE_BEHIND
  {
  }

  lemma CandidateIsDirty(b: Bcb, w: Wish)
    requires Candidate(b, w)
    ensures b.dirty
  {
  }

  lemma NobodyYet(owned: bool, free: int -> bool)
    ensures WaitsOnce([], owned, free)
  {
  }

  lemma TookNothing(bcbs: seq<Bcb>, from: int, owned: bool, w: Wish)
    requires -1 <= from < |bcbs|
    ensures Undisturbed(bcbs, bcbs, from + 1, [], 0, owned, w, from)
  {
  }

  lemma TookOneMore(was: seq<Bcb>, before: seq<Bcb>, now: seq<Bcb>, top: int, run: seq<Claim>, newest: int, logged: bool, c: Claim, w: Wish, from: int)
    requires Undisturbed(was, before, top, run, newest, c.owned, w, from) && 0 < top <= |before| && before[top - 1].dirty
    requires now == before[top - 1 := Taken(before[top - 1], c.owned)] && now[top - 1] == c.bcb
    requires if run == [] then Candidate(before[top - 1], w) && !TooHigh(before[top - 1], w) else before[top - 1].pinCount == 0
    ensures Undisturbed(was, now, top - 1, run + [c], if logged && c.bcb.newestLsn > newest then c.bcb.newestLsn else newest, c.owned, w, from)
  {
    assert before[top - 1] == was[top - 1];
  }

  lemma StopsHere(was: seq<Bcb>, now: seq<Bcb>, top: int, run: seq<Claim>, newest: int, owned: bool, w: Wish, from: int, start: int, end: int, free: int -> bool)
    requires Undisturbed(was, now, top, run, newest, owned, w, from) && 0 < top <= |now|
    requires TooHigh(now[top - 1], w) || !Extends(now[top - 1], start, end)
    ensures GoesNoFurther(was, top, start, end, w.target, w.targetLength, owned, free)
  {
    assert now[top - 1] == was[top - 1];
  }

  lemma AtTheFront(was: seq<Bcb>, start: int, end: int, w: Wish, owned: bool, free: int -> bool)
    ensures GoesNoFurther(was, 0, start, end, w.target, w.targetLength, owned, free)
  {
  }

  lemma RefusedHere(was: seq<Bcb>, now: seq<Bcb>, top: int, run: seq<Claim>, newest: int, owned: bool, w: Wish, from: int, start: int, end: int, free: int -> bool)
    requires Undisturbed(was, now, top, run, newest, owned, w, from) && 0 < top <= |now|
    requires owned && !free(now[top - 1].fileOffset)
    ensures GoesNoFurther(was, top, start, end, w.target, w.targetLength, owned, free)
  {
    assert now[top - 1] == was[top - 1];
  }

  lemma SkippedOne(was: seq<Bcb>, now: seq<Bcb>, top: int, newest: int, owned: bool, w: Wish, from: int)
    requires Undisturbed(was, now, top, [], newest, owned, w, from) && 0 < top <= |was|
    requires !Candidate(now[top - 1], w)
    ensures Undisturbed(was, now, top - 1, [], newest, owned, w, from)
  {
  }

  // ----- Walking the run -----------------------------------------------------------------------------

  /** The run, lowest Bcb last, is the piece of the list that begins at `top`. */
  predicate Segment(bcbs: seq<Bcb>, top: int, run: seq<Claim>) {
    && 0 <= top && top + |run| <= |bcbs|
    && forall j | 0 <= j < |run| :: Satisfies(bcbs[top + |run| - 1 - j], run[j])
  }

  /** Bcbs that meet in the file are neighbours in the list. */
  lemma Neighbours(bcbs: seq<Bcb>, low: nat, high: nat)
    requires ListOk(bcbs) && low < |bcbs| && high < |bcbs| && bcbs[low].beyondLastByte == bcbs[high].fileOffset
    ensures low == high + 1
  {
    forall i | 0 <= i < |bcbs| ensures bcbs[i].fileOffset < bcbs[i].beyondLastByte { assert BcbOk(bcbs[i]); }
    assert high + 1 < |bcbs| ==> bcbs[high + 1].fileOffset < bcbs[high + 1].beyondLastByte;
  }

  /** A run is one contiguous piece of the list. */
  lemma {:induction false} RunIsASegment(bcbs: seq<Bcb>, run: seq<Claim>)
    requires ListOk(bcbs) && AllKept(bcbs, run) && Chain(run) && run != []
    ensures Kept(bcbs, run[|run| - 1]) && (exists i | 0 <= i < |bcbs| :: bcbs[i].fileOffset == run[|run| - 1].bcb.fileOffset)
    ensures Segment(bcbs, IndexOf(bcbs, run[|run| - 1].bcb.fileOffset), run)
    decreases |run|
  {
    hide ListOk, Kept;
    var c := run[|run| - 1];
    WhereKept(bcbs, c);
    if |run| > 1 {
      var rest := run[..|run| - 1];
      RunIsASegment(bcbs, rest);
      LongerSegment(bcbs, IndexOf(bcbs, rest[|rest| - 1].bcb.fileOffset), rest, IndexOf(bcbs, c.bcb.fileOffset), c);
      assert rest + [c] == run;
    }
  }

  lemma LongerSegment(bcbs: seq<Bcb>, top: nat, run: seq<Claim>, above: nat, c: Claim)
    requires ListOk(bcbs) && Segment(bcbs, top, run) && run != [] && above < |bcbs| && Satisfies(bcbs[above], c)
    requires run[|run| - 1].bcb.beyondLastByte == c.bcb.fileOffset
    ensures Segment(bcbs, above, run + [c])
  {
    assert Satisfies(bcbs[top + |run| - 1 - (|run| - 1)], run[|run| - 1]);
    Neighbours(bcbs, top, above);
    var run' := run + [c];
    forall j | 0 <= j < |run'| ensures Satisfies(bcbs[above + |run'| - 1 - j], run'[j]) {
      if j < |run| { assert Satisfies(bcbs[top + |run| - 1 - j], run[j]); }
    }
  }

  /** How a run ends: the log could not be flushed, or its data was written (or is to be written again). */
  datatype Ending = LogFailed | Written(verify: bool)

  /** What becomes of a member of the run. */
  function Settled(b: Bcb, metadata: bool, ending: Ending): Bcb {
    if ending.LogFailed? then b
    else
      var clean := if metadata then Released(b, SET_CLEAN) else b;
      if ending.verify then Dirtied(clean, None) else clean
  }

  function Fate(b: Bcb, metadata: bool, ending: Ending): seq<Bcb>
    requires b.pinCount > 0
  {
    var last := Settled(b, metadata, ending).(pinCount := b.pinCount - 1);
    if last.pinCount != 0 then [last] else if last.dirty then [last.(mapped := false)] else []
  }

  function Fates(bcbs: seq<Bcb>, metadata: bool, ending: Ending): seq<Bcb>
    requires forall i | 0 <= i < |bcbs| :: bcbs[i].pinCount > 0
    decreases |bcbs|
  {
    if bcbs == [] then []
    else Fates(bcbs[..|bcbs| - 1], metadata, ending) + Fate(bcbs[|bcbs| - 1], metadata, ending)
  }

  /** After a write of metadata the members are clean, and those that nobody else has pinned are gone. If the
      write is to be retried they all stay, dirty, but without the Lsns that they had. */
  lemma {:induction false} FatesOfWritten(bcbs: seq<Bcb>, verify: bool)
    requires forall i | 0 <= i < |bcbs| :: bcbs[i].pinCount > 0
    ensures forall k | 0 <= k < |Fates(bcbs, true, Written(verify))| :: Fates(bcbs, true, Written(verify))[k].dirty == verify
    ensures verify ==> |Fates(bcbs, true, Written(verify))| == |bcbs|
    ensures verify ==> forall k | 0 <= k < |bcbs| ::
              var b, now := bcbs[k], Fates(bcbs, true, Written(verify))[k];
              && now.fileOffset == b.fileOffset && now.pinCount == b.pinCount - 1
              && now.oldestLsn == (if b.dirty then 0 else b.oldestLsn) && now.newestLsn == (if b.dirty then 0 else b.newestLsn)
    ensures !verify ==> |Fates(bcbs, true, Written(verify))| == PinnedByOthers(bcbs)
    decreases |bcbs|
  {
    if bcbs != [] {
      FatesOfWritten(bcbs[..|bcbs| - 1], verify);
    }
  }

  function PinnedByOthers(bcbs: seq<Bcb>): nat
    decreases |bcbs|
  {
    if bcbs == [] then 0 else PinnedByOthers(bcbs[..|bcbs| - 1]) + if bcbs[|bcbs| - 1].pinCount > 1 then 1 else 0
  }

  /** One member: set clean (metadata), dirty again if asked for, and unpinned. */
  method SettleOne(s: BcbStream, k: nat, ending: Ending)
    requires s.Valid() && k < |s.bcbs| && s.bcbs[k].pinCount > 0
    modifies s`bcbs, s`dirtyPages, s`onDirtyList, s`validDataGoal, s.cc
    ensures s.Valid()
    ensures s.bcbs == old(s.bcbs)[..k] + Fate(old(s.bcbs)[k], s.metadata, ending) + old(s.bcbs)[k + 1..]
  {
    hide ListOk, InUse, DirtyPagesOf, Dirtied;
    ghost var was := s.bcbs;
    LsnsAt(was, k);
    if ending.Written? {
      if s.metadata { s.UnpinFileData(k, SET_CLEAN); }
      LsnsAt(s.bcbs, k);
      DirtiedEncloses(s.bcbs[k], None);
      if ending.verify { s.SetDirtyOne(k, None); }
    }
    assert s.bcbs == was[k := Settled(was[k], s.metadata, ending)];
    OneFate(was, k, s.metadata, ending);
    s.UnpinFileData(k, UNPIN);
  }

  lemma OneFate(bcbs: seq<Bcb>, k: nat, metadata: bool, ending: Ending)
    requires k < |bcbs| && bcbs[k].pinCount > 0 && LsnsOk(bcbs[k])
    ensures Settled(bcbs[k], metadata, ending).pinCount == bcbs[k].pinCount
    ensures var now := bcbs[k := Settled(bcbs[k], metadata, ending)];
            Dropped(now, k, Released(now[k], UNPIN)) == bcbs[..k] + Fate(bcbs[k], metadata, ending) + bcbs[k + 1..]
  {
    DirtiedEncloses(bcbs[k], None);
    DirtiedEncloses(Released(bcbs[k], SET_CLEAN), None);
  }

  /** One turn of the walk, with `m` members still to settle: the Bcb at `at`, and where the next one is. Others
      have their turn afterwards. */
  method SettleNext(s: BcbStream, run: seq<Claim>, m: nat, at: int, ending: Ending, turns: nat)
    returns (next: int, k: nat, left: nat)
    requires s.Valid() && 0 < m <= |run| && AllKept(s.bcbs, run[..m]) && Chain(run) && at == run[m - 1].bcb.fileOffset
    modifies s`bcbs, s`dirtyPages, s`onDirtyList, s`validDataGoal, s.cc
    ensures s.Valid() && AllKept(s.bcbs, run[..m - 1]) && left <= turns
    ensures k < |old(s.bcbs)| && Satisfies(old(s.bcbs)[k], run[m - 1]) && old(s.bcbs)[k].fileOffset == at
    ensures if m > 1 then next == run[m - 2].bcb.fileOffset && run[0].bcb.fileOffset < at else at == run[0].bcb.fileOffset
    ensures old(s.bcbs)[k].pinCount > 0
    ensures left == turns ==> s.bcbs == old(s.bcbs)[..k] + Fate(old(s.bcbs)[k], s.metadata, ending) + old(s.bcbs)[k + 1..]
  {
    hide ListOk, InUse, DirtyPagesOf, Fate, AllKept, Satisfies, Chain;
    StandsAt(s.bcbs, run, m);
    k := IndexOf(s.bcbs, at);
    next := if k + 1 < |s.bcbs| then s.bcbs[k + 1].fileOffset else 0;
    ghost var was := s.bcbs;
    SettleOne(s, k, ending);
    KeptUnderSettling(was, k, Fate(was[k], s.metadata, ending), run, m, s.bcbs);
    left := Others(s, run[..m - 1], turns);
  }

  /** CcReleaseByteRangeFromWrite, and the cleanup after a failed log flush: from the member at `highest` down the
      list until the one at `start` is done, while others are at work in between. Every member is settled, as it
      was found when its turn came; and if nobody else was at work, nothing else has changed. */
  method WalkBack(s: BcbStream, highest: int, start: int, ending: Ending, turns: nat, run: seq<Claim>, ghost top: nat)
    returns (left: nat, ghost found: seq<Bcb>)
    requires s.Valid() && run != [] && Segment(s.bcbs, top, run) && Chain(run)
    requires run[0].bcb.fileOffset == start && run[|run| - 1].bcb.fileOffset == highest
    modifies s`bcbs, s`dirtyPages, s`onDirtyList, s`validDataGoal, s.cc
    ensures s.Valid() && left <= turns && FoundAll(found, run)
    ensures left == turns ==>
              var was, n := old(s.bcbs), |run|;
              && top + n <= |was| && (forall i | top <= i < top + n :: was[i].pinCount > 0)
              && s.bcbs == was[..top] + Fates(was[top..top + n], s.metadata, ending) + was[top + n..]
  {
    hide ListOk, InUse, DirtyPagesOf, Fate, AllKept, Satisfies, Walked, Chain, Segment, FoundAll;
    ghost var was, n, walked := s.bcbs, |run|, top;
    SegmentPins(was, top, run);
    WalkBegins(was, top, n, s.metadata, ending);
    SegmentIsKept(was, top, run);
    var at, done := highest, 0;
    left, found := turns, [];
    while true
      invariant done == |found| < n && s.Valid() && left <= turns && at == run[n - 1 - |found|].bcb.fileOffset
      invariant AllKept(s.bcbs, run[..n - |found|]) && FoundAll(found, run[n - |found|..])
      invariant left == turns ==> Walked(was, top, n, |found|, s.metadata, ending, s.bcbs, walked)
      decreases n - |found|
    {
      ghost var before, calm := s.bcbs, left == turns;
      var next, k;
      next, k, left := SettleNext(s, run, |run| - done, at, ending, left);
      FoundMore(found, run, before[k]);
      if calm {
        StepBack(was, top, run, |found|, s.metadata, ending, before, walked);
        OneIndex(before, k, walked);
        walked := walked + 1 - (|before| - |s.bcbs|);
      }
      found := found + [before[k]];
      done := done + 1;
      if at == start { break; }
      at := next;
    }
    if left == turns { WalkEnds(was, top, n, s.metadata, ending, s.bcbs, walked); }
  }

  /** The members, from the highest on, as they were found. */
  ghost predicate FoundAll(found: seq<Bcb>, run: seq<Claim>) {
    |found| == |run| && forall j | 0 <= j < |found| :: Satisfies(found[j], run[|run| - 1 - j])
  }

  /** With nobody else at work: the walk over the `n` entries from `top` on has settled `j` of them and stands at
      `k`. */
  ghost predicate Walked(was: seq<Bcb>, top: nat, n: nat, j: nat, metadata: bool, ending: Ending, now: seq<Bcb>, k: int) {
    && j <= n && top + n <= |was| && (forall i | top <= i < top + n :: was[i].pinCount > 0)
    && now == was[..top] + Fates(was[top..top + j], metadata, ending) + was[top + j..]
    && k == top + |Fates(was[top..top + j], metadata, ending)|
  }

  lemma WalkBegins(was: seq<Bcb>, top: nat, n: nat, metadata: bool, ending: Ending)
    requires top + n <= |was| && forall i | top <= i < top + n :: was[i].pinCount > 0
    ensures Walked(was, top, n, 0, metadata, ending, was, top)
  {
    assert was == was[..top] + [] + was[top + 0..];
  }

  lemma WalkEnds(was: seq<Bcb>, top: nat, n: nat, metadata: bool, ending: Ending, now: seq<Bcb>, k: int)
    requires Walked(was, top, n, n, metadata, ending, now, k)
    ensures top + n <= |was| && forall i | top <= i < top + n :: was[i].pinCount > 0
    ensures now == was[..top] + Fates(was[top..top + n], metadata, ending) + was[top + n..]
  {
  }

  lemma StepBack(was: seq<Bcb>, top: nat, run: seq<Claim>, j: nat, metadata: bool, ending: Ending, now: seq<Bcb>, k: int)
    requires Segment(was, top, run) && j < |run| && Walked(was, top, |run|, j, metadata, ending, now, k)
    ensures 0 <= k < |now| && now[k].pinCount > 0 && now[k].fileOffset == run[|run| - 1 - j].bcb.fileOffset
    ensures var now' := now[..k] + Fate(now[k], metadata, ending) + now[k + 1..];
            Walked(was, top, |run|, j + 1, metadata, ending, now', k + 1 - (|now| - |now'|))
  {
    hide Fate, Fates;
    Rest(was, top, Fates(was[top..top + j], metadata, ending), j, now);
    FatesMore(was, top, j, metadata, ending, now);
    MemberAt(was, top, run, |run| - 1 - j);
  }

  lemma SegmentIsKept(bcbs: seq<Bcb>, top: nat, run: seq<Claim>)
    requires Segment(bcbs, top, run)
    ensures AllKept(bcbs, run[..|run| - 0]) && FoundAll([], run[|run| - 0..])
  {
    assert run[..|run| - 0] == run;
  }

  /** While its first `m` members are kept, the run's walk stands at the last of them, and the next is the entry
      behind it in the list. */
  lemma StandsAt(bcbs: seq<Bcb>, run: seq<Claim>, m: nat)
    requires ListOk(bcbs) && 0 < m <= |run| && AllKept(bcbs, run[..m]) && Chain(run)
    ensures exists i | 0 <= i < |bcbs| :: bcbs[i].fileOffset == run[m - 1].bcb.fileOffset
    ensures var k := IndexOf(bcbs, run[m - 1].bcb.fileOffset);
            && Satisfies(bcbs[k], run[m - 1]) && bcbs[k].pinCount > 0
            && (m > 1 ==> k + 1 < |bcbs| && bcbs[k + 1].fileOffset == run[m - 2].bcb.fileOffset)
    ensures m > 1 ==> run[0].bcb.fileOffset < run[m - 1].bcb.fileOffset
  {
    hide ListOk, AllKept;
    var rest := run[..m];
    var k := RunPlace(bcbs, rest);
    MemberAt(bcbs, k, rest, m - 1);
    OneIndex(bcbs, IndexOf(bcbs, run[m - 1].bcb.fileOffset), k);
    if m > 1 {
      MemberAt(bcbs, k, rest, m - 2);
      MemberAt(bcbs, k, rest, 0);
      Lower(bcbs, k, k + m - 1);
    }
  }

  lemma Lower(bcbs: seq<Bcb>, high: nat, low: nat)
    requires ListOk(bcbs) && high < low < |bcbs|
    ensures bcbs[low].fileOffset < bcbs[high].fileOffset
  {
    assert BcbOk(bcbs[low]);
  }

  lemma FoundMore(found: seq<Bcb>, run: seq<Claim>, b: Bcb)
    requires |found| < |run| && FoundAll(found, run[|run| - |found|..]) && Satisfies(b, run[|run| - 1 - |found|])
    ensures FoundAll(found + [b], run[|run| - |found + [b]|..]) && (|found| + 1 == |run| ==> FoundAll(found + [b], run))
  {
    var more, rest := found + [b], run[|run| - |found|..];
    forall j | 0 <= j < |more| ensures Satisfies(more[j], run[|run| - 1 - j]) {
      if j < |found| { assert rest[|rest| - 1 - j] == run[|run| - 1 - j]; }
    }
  }

  /** Settling one member leaves the claims to the others alone. */
  lemma KeptUnderSettling(bcbs: seq<Bcb>, k: nat, fate: seq<Bcb>, run: seq<Claim>, m: nat, now: seq<Bcb>)
    requires ListOk(bcbs) && 0 < m <= |run| && AllKept(bcbs, run[..m]) && Chain(run)
    requires k < |bcbs| && Satisfies(bcbs[k], run[m - 1]) && now == bcbs[..k] + fate + bcbs[k + 1..]
    ensures AllKept(now, run[..m - 1])
  {
    var rest := run[..m];
    var top := RunPlace(bcbs, rest);
    OneIndex(bcbs, k, top);
    var ahead := run[..m - 1];
    forall j | 0 <= j < |ahead| ensures Kept(now, ahead[j]) {
      MemberAt(bcbs, top, rest, j);
      var i := top + m - 1 - j;
      assert now[i - 1 + |fate|] == bcbs[i];
    }
  }

  lemma RunPlace(bcbs: seq<Bcb>, run: seq<Claim>) returns (top: nat)
    requires ListOk(bcbs) && AllKept(bcbs, run) && Chain(run) && run != []
    ensures Segment(bcbs, top, run) && top < |bcbs| && bcbs[top].fileOffset == run[|run| - 1].bcb.fileOffset
  {
    RunIsASegment(bcbs, run);
    top := IndexOf(bcbs, run[|run| - 1].bcb.fileOffset);
  }

  lemma Rest(was: seq<Bcb>, top: nat, done: seq<Bcb>, j: nat, now: seq<Bcb>)
    requires top + j < |was| && now == was[..top] + done + was[top + j..]
    ensures top + |done| < |now| && now[top + |done|] == was[top + j]
  {
  }

  lemma FatesMore(was: seq<Bcb>, top: nat, j: nat, metadata: bool, ending: Ending, now: seq<Bcb>)
    requires top + j < |was| && forall i | top <= i <= top + j :: was[i].pinCount > 0
    requires now == was[..top] + Fates(was[top..top + j], metadata, ending) + was[top + j..]
    ensures var k := top + |Fates(was[top..top + j], metadata, ending)|;
            && k < |now| && now[k].pinCount > 0
            && now[..k] + Fate(now[k], metadata, ending) + now[k + 1..]
                 == was[..top] + Fates(was[top..top + (j + 1)], metadata, ending) + was[top + (j + 1)..]
            && |Fates(was[top..top + (j + 1)], metadata, ending)| ==
                 |Fates(was[top..top + j], metadata, ending)| + |Fate(was[top + j], metadata, ending)|
  {
    var done := Fates(was[top..top + j], metadata, ending);
    assert was[top..top + (j + 1)][..j] == was[top..top + j];
    hide Fate, Fates;
    Splice(was[..top], done, was[top + j..], Fate(was[top + j], metadata, ending), now);
    assert was[top + j..][1..] == was[top + (j + 1)..];
  }

  lemma Splice(a: seq<Bcb>, done: seq<Bcb>, rest: seq<Bcb>, more: seq<Bcb>, now: seq<Bcb>)
    requires rest != [] && now == a + done + rest
    ensures var k := |a| + |done|; now[k] == rest[0] && now[..k] + more + now[k + 1..] == a + (done + more) + rest[1..]
  {
  }

  lemma SegmentPins(bcbs: seq<Bcb>, top: nat, run: seq<Claim>)
    requires Segment(bcbs, top, run)
    ensures top + |run| <= |bcbs| && forall i | top <= i < top + |run| :: bcbs[i].pinCount > 0
  {
    forall i | top <= i < top + |run| ensures bcbs[i].pinCount > 0 {
      assert Satisfies(bcbs[top + |run| - 1 - (top + |run| - 1 - i)], run[top + |run| - 1 - i]);
    }
  }

  // ----- The log before the data ---------------------------------------------------------------------

  /** Where the search begins: on a metadata stream, CcFindBcb gives it a quicker start. */
  method StartOf(s: BcbStream, w: Wish) returns (from: int)
    requires s.Valid() && w.beyondLastFlush >= 0 && (w.target.Some? ==> w.target.value >= 0)
    ensures -1 <= from < |s.bcbs| && forall i | from < i < |s.bcbs| :: !Candidate(s.bcbs[i], w)
  {
    from := |s.bcbs| - 1;
    if s.metadata {
      var starting := if w.target.Some? then w.target.value else w.beyondLastFlush;
      if starting != 0 {
        var found, k, beyond := FindBcb(s.bcbs, starting, starting + 4096);
        from := k;
        if !found { from := from - 1; }
        BelowStart(s.bcbs, starting, k, found);
      }
    }
  }

  lemma BelowStart(bcbs: seq<Bcb>, starting: int, k: nat, found: bool)
    requires ListOk(bcbs) && StopsAt(bcbs, starting, k) && (found ==> k < |bcbs|)
    requires !found ==> forall i | 0 <= i < |bcbs| :: !bcbs[i].Covers(starting)
    ensures forall i | (if found then k else k - 1) < i < |bcbs| ::
              bcbs[i].beyondLastByte <= starting && bcbs[i].fileOffset < starting
  {
    forall i | (if found then k else k - 1) < i < |bcbs|
      ensures bcbs[i].beyondLastByte <= starting && bcbs[i].fileOffset < starting
    {
      assert BcbOk(bcbs[i]);
      if i > k { assert bcbs[i].beyondLastByte <= bcbs[k].fileOffset; }
    }
  }

  /** The scan begins at the first candidate in the file, or there is none that is not beyond the target. */
  lemma FirstOfAll(was: seq<Bcb>, now: seq<Bcb>, top: int, count: nat, w: Wish, from: int, owned: bool, start: int)
    requires ListOk(was) && TookPiece(was, now, top, count, owned) && TookFirst(was, top, count, w, from)
    requires forall i | from < i < |was| :: !Candidate(was[i], w)
    requires count == 0 ==> now == was && forall i | 0 <= i <= from :: !Candidate(was[i], w) || TooHigh(was[i], w)
    requires count > 0 ==> top + count <= |was| && was[top + count - 1].fileOffset == start && !TooHigh(was[top + count - 1], w)
    ensures w.target.Some? ==> TargetStart(was, w.target.value, w.targetLength, count > 0, start)
    ensures w.target.None? ==> (count > 0 <==> SomeDirty(was, w.beyondLastFlush))
    ensures w.target.None? && count > 0 ==> IsLowestDirty(was, w.beyondLastFlush, start)
  {
    if count > 0 {
      LowestCandidate(was, top + count - 1, w);
    }
  }

  lemma LowestCandidate(bcbs: seq<Bcb>, m: int, w: Wish)
    requires ListOk(bcbs) && 0 <= m < |bcbs| && Candidate(bcbs[m], w)
    requires forall i | m < i < |bcbs| :: !Candidate(bcbs[i], w)
    ensures forall i | 0 <= i < |bcbs| && Candidate(bcbs[i], w) :: bcbs[m].fileOffset <= bcbs[i].fileOffset
  {
    forall i | 0 <= i < m ensures bcbs[m].fileOffset <= bcbs[i].fileOffset {
      Lower(bcbs, i, m);
    }
  }

  lemma LazyStartIs(bcbs: seq<Bcb>, beyond: int, from: int, any: bool, start: int)
    requires from == beyond || (from == 0 && !SomeDirty(bcbs, beyond))
    requires (any <==> SomeDirty(bcbs, from)) && (any ==> IsLowestDirty(bcbs, from, start)) && from >= 0
    ensures any || from == 0 ==> LazyStart(bcbs, beyond, any, start)
    ensures !any ==> !SomeDirty(bcbs, beyond)
  {
  }

  lemma RunBegins(run: seq<Claim>, start: int, end: int, owned: bool)
    requires RunOk(run, start, end, owned) && run != []
    ensures run[0].bcb.fileOffset == start
  {
  }

  lemma EndIsPositive(run: seq<Claim>, start: int, end: int, owned: bool, bcbs: seq<Bcb>)
    requires RunOk(run, start, end, owned) && run != [] && AllKept(bcbs, run) && ListOk(bcbs)
    ensures 0 <= start < end
  {
    assert Kept(bcbs, run[0]);
    var i :| 0 <= i < |bcbs| && Satisfies(bcbs[i], run[0]);
    assert BcbOk(bcbs[i]);
  }

  /** The loop around the scan: the lazy writer wraps around to the start of the file once. */
  method FindRun(s: BcbStream, target: Option<int>, targetLength: nat, logged: bool, free: int -> bool, turns: nat)
    returns (run: seq<Claim>, start: int, end: int, newest: int, left: nat, ghost top: int)
    requires s.Valid() && s.beyondLastFlush >= 0 && (target.Some? ==> target.value >= 0)
    modifies s`bcbs, s`dirtyPages, s`onDirtyList, s`validDataGoal, s`beyondLastFlush, s`pagesToWrite, s.cc
    ensures s.Valid() && RunOk(run, start, end, Owns(s)) && AllKept(s.bcbs, run) && left <= turns
    ensures |run| > 1 ==> end - start <= MAX_WRITE_BEHIND
    ensures newest >= 0 && (if logged then UpTo(run, newest) else newest == 0)
    ensures left == turns && !Owns(s) ==> newest == 0
    ensures left == turns ==> TookPiece(old(s.bcbs), s.bcbs, top, |run|, Owns(s))
    ensures left == turns && run != [] ==> 0 <= top < |s.bcbs| && s.bcbs[top].fileOffset == run[|run| - 1].bcb.fileOffset
    ensures left == turns && target.Some? ==> TargetStart(old(s.bcbs), target.value, targetLength, run != [], start)
    ensures left == turns && target.None? ==> LazyStart(old(s.bcbs), old(s.beyondLastFlush), run != [], start)
    ensures left == turns ==> LeavesPinnedOut(old(s.bcbs), top, |run|)
    ensures left == turns && run != [] ==> GoesNoFurther(old(s.bcbs), top, start, end, target, targetLength, Owns(s), free)
    ensures WaitsOnce(run, Owns(s), free)
    ensures if target.None? then s.beyondLastFlush == (if run == [] then 0 else end) else s.beyondLastFlush == old(s.beyondLastFlush)
    ensures s.pagesToWrite == if target.None? && run != [] then Less(old(s.pagesToWrite), (end - start) / 4096) else old(s.pagesToWrite)
  {
    hide ListOk, InUse, DirtyPagesOf, AllKept, RunOk, TookPiece, TookFirst, UpTo, Candidate, TooHigh, GoesNoFurther, WaitsOnce, LeavesPinnedOut, LazyStart, TargetStart, SomeDirty;
    left := turns;
    while true
      invariant s.Valid() && s.beyondLastFlush >= 0 && left <= turns && (left == turns ==> s.bcbs == old(s.bcbs))
      invariant s.pagesToWrite == old(s.pagesToWrite) && (target.Some? ==> s.beyondLastFlush == old(s.beyondLastFlush))
      invariant left == turns && s.beyondLastFlush != old(s.beyondLastFlush) ==>
                  s.beyondLastFlush == 0 && !SomeDirty(old(s.bcbs), old(s.beyondLastFlush))
      decreases left, s.beyondLastFlush != 0
    {
      var w := Wish(target, targetLength, s.beyondLastFlush);
      var from := StartOf(s, w);
      ghost var before := s.bcbs;
      run, start, end, newest, left, top := ScanBcbs(s, w, from, logged, free, left);
      if left == turns {
        if run != [] { RunBegins(run, start, end, Owns(s)); }
        FirstOfAll(before, s.bcbs, top, |run|, w, from, Owns(s), start);
        if target.None? { LazyStartIs(before, old(s.beyondLastFlush), s.beyondLastFlush, run != [], start); }
      }
      if run != [] {
        if target.None? {
          EndIsPositive(run, start, end, Owns(s), s.bcbs);
          s.beyondLastFlush := end;
          s.pagesToWrite := Less(s.pagesToWrite, (end - start) / 4096);
        }
        break;
      } else if s.beyondLastFlush == 0 || target.Some? {
        break;
      }
      s.beyondLastFlush := 0;
    }
  }

  /** The part of CcAcquireByteRangeForWrite that deals with Bcbs; others are at work whenever the lock is free,
      before and during the flush of the log too. On success the run is a contiguous piece of the list, and the
      log is on the disk up to every Lsn of every member. If the log cannot be flushed, each member was still
      dirty, with its Lsns, when it was let go, and if nobody else was at work the list is as it was. */
  method AcquireBcbs(s: BcbStream, log: Log, logged: bool, target: Option<int>, targetLength: nat, free: int -> bool, logTakes: bool, turns: nat)
    returns (found: bool, fileOffset: int, length: int, highest: int, left: nat,
             run: seq<Claim>, ghost top: int, ghost letGo: seq<Bcb>)
    requires s.Valid() && s.beyondLastFlush >= 0 && (target.Some? ==> target.value >= 0) && log.flushedTo >= 0
    modifies s`bcbs, s`dirtyPages, s`onDirtyList, s`validDataGoal, s`beyondLastFlush, s`pagesToWrite, s.cc, log
    ensures s.Valid() && left <= turns && RunOk(run, fileOffset, fileOffset + (if found then length else RunLength(run)), Owns(s))
    ensures found ==> run != [] && AllKept(s.bcbs, run) && run[|run| - 1].bcb.fileOffset == highest
    ensures found ==> 0 < length && (|run| > 1 ==> length <= MAX_WRITE_BEHIND)
    ensures found ==> 0 <= top && Segment(s.bcbs, top, run)
    ensures found && logged && Owns(s) ==> forall i | top <= i < top + |run| :: s.bcbs[i].dirty && s.bcbs[i].newestLsn <= log.flushedTo
    ensures left == turns && !Owns(s) ==> log.flushedTo == old(log.flushedTo)
    ensures !found ==> FoundAll(letGo, run)
    ensures !found && left == turns && Owns(s) ==> s.bcbs == old(s.bcbs)
    ensures if target.None? then s.beyondLastFlush == (if run == [] then 0 else fileOffset + RunLength(run))
            else s.beyondLastFlush == old(s.beyondLastFlush)
    ensures s.pagesToWrite == if target.None? && run != [] then Less(old(s.pagesToWrite), RunLength(run) / 4096) else old(s.pagesToWrite)
    ensures left == turns && target.Some? ==> TargetStart(old(s.bcbs), target.value, targetLength, run != [], fileOffset)
    ensures left == turns && target.None? ==> LazyStart(old(s.bcbs), old(s.beyondLastFlush), run != [], fileOffset)
    ensures left == turns ==> LeavesPinnedOut(old(s.bcbs), top, |run|)
    ensures left == turns && run != [] ==>
              GoesNoFurther(old(s.bcbs), top, fileOffset, fileOffset + RunLength(run), target, targetLength, Owns(s), free)
    ensures WaitsOnce(run, Owns(s), free)
    ensures logTakes || !logged || (left == turns && !Owns(s)) ==> (found <==> run != [])
    ensures found && left == turns ==> TookPiece(old(s.bcbs), s.bcbs, top, |run|, Owns(s))
  {
    hide ListOk, InUse, DirtyPagesOf, AllKept, RunOk, TookPiece, UpTo, Segment, Satisfies, FoundAll, GoesNoFurther, WaitsOnce, LeavesPinnedOut, LazyStart, TargetStart;
    var end, newest;
    run, fileOffset, end, newest, left, top := FindRun(s, target, targetLength, logged, free, turns);
    length, highest, found, letGo := end - fileOffset, 0, false, [];
    LengthOf(run, fileOffset, end, Owns(s));
    if run == [] {
      NothingTaken(old(s.bcbs), s.bcbs, top, Owns(s));
      FoundNone(run);
      return;
    }
    ghost var piece := top;
    highest := run[|run| - 1].bcb.fileOffset;
    left := Others(s, run, left);
    found := true;
    if newest != 0 {
      found := log.FlushToLsn(newest, logTakes);
      left := Others(s, run, left);
    }
    top := RunPlace(s.bcbs, run);
    if left == turns { OneIndex(s.bcbs, piece, top); }
    if found {
      if logged && Owns(s) { LogComesFirst(s.bcbs, top, run, newest, log.flushedTo); }
    } else {
      ghost var was := s.bcbs;
      left, letGo := WalkBack(s, highest, fileOffset, LogFailed, left, run, top);
      if left == turns && Owns(s) {
        PinsRestored(old(s.bcbs), was, top, run, s.metadata, s.bcbs);
      }
    }
  }

  function RunLength(run: seq<Claim>): int {
    if run == [] then 0 else run[|run| - 1].bcb.beyondLastByte - run[0].bcb.fileOffset
  }

  lemma LengthOf(run: seq<Claim>, start: int, end: int, owned: bool)
    requires RunOk(run, start, end, owned)
    ensures end - start == RunLength(run) && (run != [] ==> run[0].bcb.fileOffset == start && start < end) && Chain(run)
    ensures forall j | 0 <= j < |run| :: run[j].owned == owned
  {
  }

  lemma FoundNone(run: seq<Claim>)
    ensures run == [] ==> FoundAll([], run)
  {
  }

  lemma NothingTaken(was: seq<Bcb>, now: seq<Bcb>, top: int, owned: bool)
    ensures TookPiece(was, now, top, 0, owned) ==> now == was
  {
  }

  lemma LogComesFirst(bcbs: seq<Bcb>, first: nat, run: seq<Claim>, newest: int, flushedTo: int)
    requires Segment(bcbs, first, run) && UpTo(run, newest) && newest <= flushedTo
    requires forall j | 0 <= j < |run| :: run[j].owned
    ensures first + |run| <= |bcbs| && forall i | first <= i < first + |run| :: bcbs[i].dirty && bcbs[i].newestLsn <= flushedTo
  {
    forall i | first <= i < first + |run| ensures bcbs[i].dirty && bcbs[i].newestLsn <= flushedTo {
      assert Satisfies(bcbs[first + |run| - 1 - (first + |run| - 1 - i)], run[first + |run| - 1 - i]);
    }
  }

  /** Releasing members that are dirty removes none of them. */
  lemma {:induction false} FatesOfDirty(bcbs: seq<Bcb>, metadata: bool)
    requires forall i | 0 <= i < |bcbs| :: bcbs[i].pinCount > 0 && bcbs[i].dirty
    ensures var now := Fates(bcbs, metadata, LogFailed);
            && |now| == |bcbs|
            && forall i | 0 <= i < |bcbs| :: Fate(bcbs[i], metadata, LogFailed) == [now[i]]
    decreases |bcbs|
  {
    if bcbs != [] {
      FatesOfDirty(bcbs[..|bcbs| - 1], metadata);
    }
  }

  lemma MemberAt(bcbs: seq<Bcb>, first: nat, run: seq<Claim>, j: nat)
    requires Segment(bcbs, first, run) && j < |run|
    ensures first + |run| <= |bcbs| && Satisfies(bcbs[first + |run| - 1 - j], run[j])
  {
  }

  lemma SegmentIsDirty(bcbs: seq<Bcb>, first: nat, run: seq<Claim>)
    requires Segment(bcbs, first, run) && forall j | 0 <= j < |run| :: run[j].owned
    ensures first + |run| <= |bcbs| && forall i | first <= i < first + |run| :: bcbs[i].dirty
  {
    forall i | first <= i < first + |run| ensures bcbs[i].dirty {
      MemberAt(bcbs, first, run, first + |run| - 1 - i);
    }
  }

  lemma UnpinTakesBack(b: Bcb, metadata: bool)
    requires b.dirty && (b.pinCount > 0 || !b.mapped)
    ensures Fate(Taken(b, true), metadata, LogFailed) == [b]
  {
  }

  lemma PinsRestored(before: seq<Bcb>, was: seq<Bcb>, top: nat, run: seq<Claim>, metadata: bool, now: seq<Bcb>)
    requires InUse(before) && TookPiece(before, was, top, |run|, true) && Segment(was, top, run)
    requires (forall j | 0 <= j < |run| :: run[j].owned) && forall i | top <= i < top + |run| :: was[i].pinCount > 0
    requires now == was[..top] + Fates(was[top..top + |run|], metadata, LogFailed) + was[top + |run|..]
    ensures now == before
  {
    hide Fates, Fate;
    SegmentIsDirty(was, top, run);
    var piece := was[top..top + |run|];
    FatesOfDirty(piece, metadata);
    forall i | top <= i < top + |run| ensures Fates(piece, metadata, LogFailed)[i - top] == before[i] {
      assert piece[i - top] == was[i] == Taken(before[i], true);
      UnpinTakesBack(before[i], metadata);
    }
  }
}
