/**
 The dirty page counters over all streams. Every stream charges its mask, its dirty Bcbs and its active page to
 its own count and to CcTotalDirtyPages; the lazy writer also counts a stream up by one, and down again, only to
 keep it from going away.
 */
module DirtyCounters {

  datatype Pinned = Pinned(pages: nat, dirty: bool)

  /** `active` is ACTIVE_PAGE_IS_DIRTY, `held` how often the count is biased at the moment. */
  datatype Stream = Stream(
    mask: set<int>, bcbs: seq<Pinned>, active: bool, held: nat, dirtyPages: int, openCount: nat, writeBehind: bool)

  /** Every stream is on the dirty list or on the clean list; `onDirty` are those on the dirty list. */
  datatype State = State(streams: seq<Stream>, onDirty: set<nat>, total: int)

  datatype Action =
    | Mark(s: nat, pages: set<int>)               // CcSetDirtyInMask
    | Take(s: nat, run: set<int>)                 // CcAcquireByteRangeForWrite, from the mask
    | DeleteMask(s: nat)                          // CcDeleteMbcb
    | AddBcb(s: nat, k: nat, size: nat)           // CcAllocateInitializeBcb
    | DropBcb(s: nat, k: nat)                     // CcUnpinFileDataEx, last pin of a clean Bcb
    | SetDirty(s: nat, k: nat)                    // CcSetDirtyPinnedData
    | SetClean(s: nat, k: nat)                    // CcUnpinFileDataEx, SET_CLEAN
    | DeleteBcbs(s: nat)                          // CcDeleteBcbs
    | SetActive(s: nat)                           // SetActiveVacb
    | FreeActive(s: nat)                          // CcFreeActiveVacb, after it has marked the page
    | Hold(s: nat)                                // CcLazyWriteScan
    | Unhold(s: nat)
    | Open(s: nat)                                // CcInitializeCacheMap on a stream already cached
    | Close(s: nat)                               // CcUninitializeCacheMap and other users' last close

  function PagesOf(b: Pinned): nat {
    if b.dirty then b.pages else 0
  }

  function BcbPages(bcbs: seq<Pinned>): nat {
    if bcbs == [] then 0 else PagesOf(bcbs[0]) + BcbPages(bcbs[1..])
  }

  /** What the stream has charged to the total. */
  function Charge(st: Stream): nat {
    |st.mask| + BcbPages(st.bcbs) + if st.active then 1 else 0
  }

  function Total(streams: seq<Stream>): nat {
    if streams == [] then 0 else Charge(streams[0]) + Total(streams[1..])
  }

  predicate Possible(s: State, a: Action) {
    && a.s < |s.streams|
    && var st := s.streams[a.s];
       match a
       case Take(_, run) => run <= st.mask && run != {}
       case AddBcb(_, k, _) => k <= |st.bcbs|
       case DropBcb(_, k) => k < |st.bcbs| && !st.bcbs[k].dirty
       case SetDirty(_, k) => k < |st.bcbs|
       case SetClean(_, k) => k < |st.bcbs|
       case SetActive(_) => !st.active
       case FreeActive(_) => st.active
       case Hold(_) => a.s in s.onDirty
       case Unhold(_) => st.held > 0
       case Close(_) => st.openCount > 0
       case _ => true
  }

  function Charged(st: Stream, pages: int): Stream {
    st.(dirtyPages := st.dirtyPages + pages)
  }

  /** What a step does to its stream, to the total, and to the stream's place: stay, or go to one of the lists. */
  datatype Effect = Effect(st: Stream, charge: int, move: Move)
  datatype Move = Stay | ToDirty | ToClean

  function EffectOn(st: Stream, a: Action, possible: State): Effect
    requires Possible(possible, a) && possible.streams[a.s] == st
  {
    match a
    case Mark(_, pages) =>
      var added := |pages - st.mask|;
      Effect(Charged(st.(mask := st.mask + pages), added), added, if st.dirtyPages == 0 then ToDirty else Stay)
    case Take(_, run) =>
      var st' := Charged(st.(mask := st.mask - run), -|run|);
      Effect(st', -|run|, if st'.dirtyPages == 0 then ToClean else Stay)
    case DeleteMask(_) => Effect(Charged(st.(mask := {}), -|st.mask|), -|st.mask|, Stay)
    case AddBcb(_, k, size) => Effect(st.(bcbs := st.bcbs[..k] + [Pinned(size, false)] + st.bcbs[k..]), 0, Stay)
    case DropBcb(_, k) => Effect(st.(bcbs := st.bcbs[..k] + st.bcbs[k + 1..]), 0, Stay)
    case SetDirty(_, k) =>
      if st.bcbs[k].dirty then Effect(st, 0, Stay)
      else
        var pages := st.bcbs[k].pages;
        Effect(Charged(st.(bcbs := st.bcbs[k := Pinned(pages, true)]), pages), pages,
               if st.dirtyPages == 0 && st.writeBehind then ToDirty else Stay)
    case SetClean(_, k) =>
      if !st.bcbs[k].dirty then Effect(st, 0, Stay)
      else
        var pages := st.bcbs[k].pages;
        var st' := Charged(st.(bcbs := st.bcbs[k := Pinned(pages, false)]), 0 - pages);
        Effect(st', 0 - pages, if st'.dirtyPages == 0 && st.openCount != 0 then ToClean else Stay)
    case DeleteBcbs(_) => Effect(Charged(st.(bcbs := []), 0 - BcbPages(st.bcbs)), 0 - BcbPages(st.bcbs), Stay)
    case SetActive(_) => Effect(Charged(st.(active := true), 1), 1, if st.dirtyPages + 1 == 1 then ToDirty else Stay)
    case FreeActive(_) => Effect(Charged(st.(active := false), -1), -1, Stay)
    case Hold(_) => Effect(Charged(st.(held := st.held + 1), 1), 0, Stay)
    case Unhold(_) => Effect(Charged(st.(held := st.held - 1), -1), 0, Stay)
    case Open(_) => Effect(st.(openCount := st.openCount + 1), 0, if st.dirtyPages == 0 then ToClean else Stay)
    case Close(_) =>
      Effect(st.(openCount := st.openCount - 1), 0, if st.openCount == 1 && st.dirtyPages == 0 then ToDirty else Stay)
  }

  function After(s: State, a: Action): State
    requires Possible(s, a)
  {
    var e := EffectOn(s.streams[a.s], a, s);
    State(s.streams[a.s := e.st],
          match e.move case Stay => s.onDirty case ToDirty => s.onDirty + {a.s} case ToClean => s.onDirty - {a.s},
          s.total + e.charge)
  }

  // ----- Conservation --------------------------------------------------------------------------------

  predicate StreamOk(st: Stream, onDirty: bool) {
    && st.dirtyPages == Charge(st) + st.held
    && (st.held > 0 ==> onDirty)
    && (st.writeBehind && st.dirtyPages > 0 ==> onDirty)
  }

  predicate Inv(s: State) {
    s.total == Total(s.streams) && forall i | 0 <= i < |s.streams| :: StreamOk(s.streams[i], i in s.onDirty)
  }

  lemma {:induction false} TotalUpdate(streams: seq<Stream>, i: nat, st: Stream)
    requires i < |streams|
    ensures Total(streams[i := st]) == Total(streams) - Charge(streams[i]) + Charge(st)
  {
    if i == 0 {
      assert streams[i := st][1..] == streams[1..];
    } else {
      TotalUpdate(streams[1..], i - 1, st);
      assert streams[i := st][1..] == streams[1..][i - 1 := st];
    }
  }

  lemma {:induction false} BcbPagesUpdate(bcbs: seq<Pinned>, k: nat, b: Pinned)
    requires k < |bcbs|
    ensures BcbPages(bcbs[k := b]) == BcbPages(bcbs) - PagesOf(bcbs[k]) + PagesOf(b)
  {
    if k == 0 {
      assert bcbs[k := b][1..] == bcbs[1..];
    } else {
      BcbPagesUpdate(bcbs[1..], k - 1, b);
      assert bcbs[k := b][1..] == bcbs[1..][k - 1 := b];
    }
  }

  lemma {:induction false} BcbPagesConcat(a: seq<Pinned>, b: seq<Pinned>)
    ensures BcbPages(a + b) == BcbPages(a) + BcbPages(b)
  {
    if a == [] {
      assert a + b == b;
    } else {
      BcbPagesConcat(a[1..], b);
      assert (a + b)[1..] == a[1..] + b;
    }
  }

  lemma OneBcb(b: Pinned)
    ensures BcbPages([b]) == PagesOf(b)
  {
    assert [b][1..] == [];
  }

  lemma BcbPagesInsertion(bcbs: seq<Pinned>, k: nat, b: Pinned)
    requires k <= |bcbs|
    ensures BcbPages(bcbs[..k] + [b] + bcbs[k..]) == BcbPages(bcbs) + PagesOf(b)
  {
    OneBcb(b);
    hide BcbPages, PagesOf;
    BcbPagesConcat(bcbs[..k], [b]);
    BcbPagesConcat(bcbs[..k] + [b], bcbs[k..]);
    BcbPagesConcat(bcbs[..k], bcbs[k..]);
    assert bcbs == bcbs[..k] + bcbs[k..];
  }

  lemma BcbPagesRemoval(bcbs: seq<Pinned>, k: nat)
    requires k < |bcbs|
    ensures BcbPages(bcbs[..k] + bcbs[k + 1..]) == BcbPages(bcbs) - PagesOf(bcbs[k])
  {
    OneBcb(bcbs[k]);
    hide BcbPages, PagesOf;
    BcbPagesConcat(bcbs[..k], bcbs[k + 1..]);
    BcbPagesConcat(bcbs[..k], [bcbs[k]]);
    BcbPagesConcat(bcbs[..k] + [bcbs[k]], bcbs[k + 1..]);
    assert bcbs == bcbs[..k] + [bcbs[k]] + bcbs[k + 1..];
  }

  lemma SizeOfUnion(a: set<int>, b: set<int>)
    ensures |a + b| == |a| + |b - a|
  {
    assert a + b == a + (b - a);
  }

  lemma SizeOfDifference(a: set<int>, b: set<int>)
    requires b <= a
    ensures |a - b| == |a| - |b|
  {
    assert a == (a - b) + b;
  }

  /** A step charges the total exactly what its stream's charge changes by. */
  lemma EffectIsCharged(s: State, a: Action)
    requires Possible(s, a)
    ensures var st, e := s.streams[a.s], EffectOn(s.streams[a.s], a, s);
            && Charge(e.st) == Charge(st) + e.charge
            && e.st.dirtyPages - e.st.held == st.dirtyPages - st.held + e.charge
            && e.st.writeBehind == st.writeBehind
  {
    var st := s.streams[a.s];
    match a
    case Mark(_, pages) => SizeOfUnion(st.mask, pages);
    case Take(_, run) => SizeOfDifference(st.mask, run);
    case AddBcb(_, k, size) => BcbPagesInsertion(st.bcbs, k, Pinned(size, false));
    case DropBcb(_, k) => BcbPagesRemoval(st.bcbs, k);
    case SetDirty(_, k) => BcbPagesUpdate(st.bcbs, k, Pinned(st.bcbs[k].pages, true));
    case SetClean(_, k) => BcbPagesUpdate(st.bcbs, k, Pinned(st.bcbs[k].pages, false));
    case _ =>
  }

  lemma StepKeepsInv(s: State, a: Action)
    requires Inv(s) && Possible(s, a)
    ensures Inv(After(s, a))
  {
    StepKeepsTotal(s, a);
    PlaceKept(s, a);
    OthersKept(s, a);
    hide StreamOk, EffectOn, Charge, Possible;
    var s' := After(s, a);
    forall i | 0 <= i < |s'.streams| ensures StreamOk(s'.streams[i], i in s'.onDirty) {
      assert StreamOk(s.streams[i], i in s.onDirty);
    }
  }

  lemma StepKeepsTotal(s: State, a: Action)
    requires Possible(s, a) && s.total == Total(s.streams)
    ensures After(s, a).total == Total(After(s, a).streams)
  {
    EffectIsCharged(s, a);
    hide EffectOn, Charge, Possible;
    TotalUpdate(s.streams, a.s, EffectOn(s.streams[a.s], a, s).st);
  }

  lemma OthersKept(s: State, a: Action)
    requires Possible(s, a)
    ensures |After(s, a).streams| == |s.streams|
    ensures forall i | 0 <= i < |s.streams| && i != a.s ::
              After(s, a).streams[i] == s.streams[i] && (i in After(s, a).onDirty <==> i in s.onDirty)
  {
    hide EffectOn;
  }

  lemma PlaceKept(s: State, a: Action)
    requires Possible(s, a) && StreamOk(s.streams[a.s], a.s in s.onDirty)
    ensures StreamOk(After(s, a).streams[a.s], a.s in After(s, a).onDirty)
  {
    EffectIsCharged(s, a);
  }

  // ----- Runs ----------------------------------------------------------------------------------------

  datatype Run = Run(actions: seq<Action>, states: seq<State>)

  predicate Initial(s: State) {
    && s.total == 0 && s.onDirty == {}
    && forall i | 0 <= i < |s.streams| ::
         s.streams[i].mask == {} && s.streams[i].bcbs == [] && !s.streams[i].active && s.streams[i].held == 0 &&
         s.streams[i].dirtyPages == 0
  }

  predicate IsRun(r: Run) {
    && |r.states| == |r.actions| + 1 && Initial(r.states[0])
    && forall i | 0 <= i < |r.actions| ::
         Possible(r.states[i], r.actions[i]) && r.states[i + 1] == After(r.states[i], r.actions[i])
  }

  lemma {:induction false} NothingCharged(streams: seq<Stream>)
    requires forall i | 0 <= i < |streams| :: Charge(streams[i]) == 0
    ensures Total(streams) == 0
  {
    if streams != [] { NothingCharged(streams[1..]); }
  }

  lemma {:induction false} InvHolds(r: Run, i: nat)
    requires IsRun(r) && i < |r.states|
    ensures Inv(r.states[i])
  {
    if i == 0 {
      NothingCharged(r.states[0].streams);
    } else {
      InvHolds(r, i - 1);
      StepKeepsInv(r.states[i - 1], r.actions[i - 1]);
    }
  }

  /** Dirty pages are conserved, in every run: the total is what the masks, the dirty Bcbs and the active pages
      add up to, no count ever goes below zero, and a stream with write-behind that has dirty pages is on the
      dirty list. */
  lemma DirtyPagesConserved(r: Run, i: nat)
    requires IsRun(r) && i < |r.states|
    ensures r.states[i].total == Total(r.states[i].streams) >= 0
    ensures forall k | 0 <= k < |r.states[i].streams| ::
              var st := r.states[i].streams[k];
              st.dirtyPages == Charge(st) + st.held >= 0 && (st.writeBehind && st.dirtyPages > 0 ==> k in r.states[i].onDirty)
  {
    InvHolds(r, i);
    forall k | 0 <= k < |r.states[i].streams| ensures StreamOk(r.states[i].streams[k], k in r.states[i].onDirty) {
    }
  }

  lemma {:induction false} TotalCovers(streams: seq<Stream>, k: nat)
    requires k < |streams|
    ensures Charge(streams[k]) <= Total(streams)
  {
    if k > 0 { TotalCovers(streams[1..], k - 1); }
  }

  lemma {:induction false} BcbPagesCover(bcbs: seq<Pinned>, j: nat)
    requires j < |bcbs|
    ensures PagesOf(bcbs[j]) <= BcbPages(bcbs)
  {
    if j > 0 { BcbPagesCover(bcbs[1..], j - 1); }
  }

  /** The lazy writer may go to sleep on a total of zero: then no page of any stream is dirty. */
  lemma ZeroMeansClean(r: Run, i: nat, k: nat)
    requires IsRun(r) && i < |r.states| && r.states[i].total == 0 && k < |r.states[i].streams|
    ensures var st := r.states[i].streams[k];
            st.mask == {} && !st.active && forall j | 0 <= j < |st.bcbs| :: PagesOf(st.bcbs[j]) == 0
  {
    InvHolds(r, i);
    TotalCovers(r.states[i].streams, k);
    var st := r.states[i].streams[k];
    forall j | 0 <= j < |st.bcbs| ensures PagesOf(st.bcbs[j]) == 0 {
      BcbPagesCover(st.bcbs, j);
    }
  }

  /** With write-behind disabled the list says nothing: the first dirty page of such a stream leaves it where it
      is if it is a Bcb's, and moves it if it is the mask's. */
  lemma FirstDirtyPageMoves(s: State, a: Action)
    requires Inv(s) && Possible(s, a) && s.streams[a.s].dirtyPages == 0 && After(s, a).streams[a.s].dirtyPages > 0
    ensures a.s in After(s, a).onDirty <==> a.s in s.onDirty || s.streams[a.s].writeBehind || !a.SetDirty?
  {
  }
}
