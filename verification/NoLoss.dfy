/**
 Writers and flushers of one stream, interleaved step by step. A writer stores into cached pages and only then
 marks them; a flusher clears the marks of a run, then has its pages written one at a time, and marks the run
 again if the write is to be retried. Every section under the stream's spin lock is one step.
 */
module NoLoss {

  /** CcMapAndCopy on one view: storing into the pages `first` to `last`, now into `page`; then marking them. */
  datatype Writer = Away | Storing(first: nat, page: nat, last: nat)

  /** CcFlushCache on one acquired run, the pages from `first` up to `beyond`: the write of the run as a whole,
      the retry page by page, and the release. */
  datatype Flusher =
    | Looking
    | Writing(first: nat, beyond: nat, written: set<nat>)
    | Retrying(first: nat, beyond: nat, page: nat, verify: bool)
    | Releasing(first: nat, beyond: nat, remark: bool)

  /** What a page holds. */
  type Data = int

  /** `hard` are the pages given up with a hard error, which CcFlushCache returns; `unmarked` those whose mark could
      not be set because an allocation failed, which nobody is told. A page leaves them when it is stored to or
      written again, and the latter also when it is marked. */
  datatype State = State(
    cache: seq<Data>, disk: seq<Data>, dirty: set<nat>, writers: seq<Writer>, flushers: seq<Flusher>,
    hard: set<nat>, unmarked: set<nat>)

  datatype WriteStatus = Success | Retry | Hard

  datatype Action =
    | BeginWrite(w: nat, first: nat, last: nat)
    | Store(w: nat, data: Data)                   // any number of times to a page
    | NextPage(w: nat)
    | Mark(w: nat, ok: bool)
    | Acquire(f: nat, first: nat, beyond: nat)
    | SkipHotSpot(f: nat)
    | Tear(f: nat, p: nat, data: Data)            // a write under way may leave anything on the disk
    | DiskWrite(f: nat, p: nat)                   // the write of the run reaches page `p`, in any order
    | WriteEnds(f: nat, status: WriteStatus)
    | RetryPage(f: nat, status: WriteStatus)
    | Release(f: nat, ok: bool)

  /** The pages from `first` up to but excluding `beyond`. */
  ghost function Span(first: nat, beyond: nat): (span: set<nat>)
    ensures forall p :: p in span <==> first <= p < beyond
    decreases beyond - first
  {
    if beyond <= first then {} else Span(first, beyond - 1) + {beyond - 1}
  }

  function UnwrittenFrom(f: Flusher): nat {
    if f.Retrying? then f.page else 0
  }

  ghost predicate Possible(s: State, a: Action) {
    match a
    case BeginWrite(w, first, last) => w < |s.writers| && s.writers[w].Away? && first <= last < |s.cache|
    case Store(w, _) => w < |s.writers| && s.writers[w].Storing?
    case NextPage(w) => w < |s.writers| && s.writers[w].Storing? && s.writers[w].page < s.writers[w].last
    case Mark(w, _) => w < |s.writers| && s.writers[w].Storing? && s.writers[w].page == s.writers[w].last
    case Acquire(f, first, beyond) =>
      f < |s.flushers| && s.flushers[f].Looking? && first < beyond && Span(first, beyond) <= s.dirty
    case SkipHotSpot(f) => f < |s.flushers| && s.flushers[f].Writing? && s.flushers[f].written == {}
    case Tear(f, p, _) => f < |s.flushers| && !s.flushers[f].Releasing? && Held(s.flushers[f], p) && p >= UnwrittenFrom(s.flushers[f])
    case DiskWrite(f, p) => f < |s.flushers| && s.flushers[f].Writing? && s.flushers[f].first <= p < s.flushers[f].beyond
    case WriteEnds(f, status) =>
      f < |s.flushers| && s.flushers[f].Writing? &&
      (status.Success? ==> s.flushers[f].written == Span(s.flushers[f].first, s.flushers[f].beyond))
    case RetryPage(f, _) => f < |s.flushers| && s.flushers[f].Retrying? && s.flushers[f].page < s.flushers[f].beyond
    case Release(f, _) => f < |s.flushers| && s.flushers[f].Releasing?
  }

  /** Page by page, a success has written the page, a hard error reports it, and a retryable one makes the
      whole run dirty again. */
  function AfterRetryPage(s: State, f: nat, status: WriteStatus): State
    requires f < |s.flushers| && s.flushers[f].Retrying? && s.flushers[f].page < |s.cache| == |s.disk|
  {
    var at := s.flushers[f];
    var verify := at.verify || status.Retry?;
    var now := if at.page + 1 < at.beyond then Retrying(at.first, at.beyond, at.page + 1, verify)
               else Releasing(at.first, at.beyond, verify);
    s.(flushers := s.flushers[f := now],
       disk := if status.Success? then s.disk[at.page := s.cache[at.page]] else s.disk,
       hard := if status.Hard? then s.hard + {at.page} else if status.Success? then s.hard - {at.page} else s.hard,
       unmarked := if status.Success? then s.unmarked - {at.page} else s.unmarked)
  }

  ghost function After(s: State, a: Action): State
    requires Shape(s) && Possible(s, a)
  {
    match a
    case BeginWrite(w, first, last) => s.(writers := s.writers[w := Storing(first, first, last)])
    case Store(w, data) =>
      var page := s.writers[w].page;
      s.(cache := s.cache[page := data], hard := s.hard - {page}, unmarked := s.unmarked - {page})
    case NextPage(w) => s.(writers := s.writers[w := s.writers[w].(page := s.writers[w].page + 1)])
    case Mark(w, ok) =>
      var pages := Span(s.writers[w].first, s.writers[w].last + 1);
      s.(writers := s.writers[w := Away],
         dirty := if ok then s.dirty + pages else s.dirty,
         unmarked := if ok then s.unmarked - pages else s.unmarked + pages)
    case Acquire(f, first, beyond) =>
      s.(dirty := s.dirty - Span(first, beyond), flushers := s.flushers[f := Writing(first, beyond, {})])
    case SkipHotSpot(f) => s.(flushers := s.flushers[f := Releasing(s.flushers[f].first, s.flushers[f].beyond, true)])
    case Tear(f, p, data) => s.(disk := s.disk[p := data])
    case DiskWrite(f, p) =>
      s.(disk := s.disk[p := s.cache[p]], hard := s.hard - {p}, unmarked := s.unmarked - {p},
         flushers := s.flushers[f := s.flushers[f].(written := s.flushers[f].written + {p})])
    case WriteEnds(f, status) =>
      var first, beyond := s.flushers[f].first, s.flushers[f].beyond;
      s.(flushers := s.flushers[f := if status.Hard? then Retrying(first, beyond, first, false)
                                    else Releasing(first, beyond, status.Retry?)])
    case RetryPage(f, status) => AfterRetryPage(s, f, status)
    case Release(f, ok) =>
      var pages := if s.flushers[f].remark then Span(s.flushers[f].first, s.flushers[f].beyond) else {};
      s.(flushers := s.flushers[f := Looking],
         dirty := if ok then s.dirty + pages else s.dirty,
         unmarked := if ok then s.unmarked - pages else s.unmarked + pages)
  }

  // ----- The invariant -----------------------------------------------------------------------------

  ghost predicate WriterInRange(w: Writer, pages: nat) {
    w.Storing? ==> w.first <= w.page <= w.last < pages
  }

  ghost predicate FlusherInRange(f: Flusher, pages: nat) {
    && (!f.Looking? ==> f.first < f.beyond <= pages)
    && (f.Writing? ==> forall p | p in f.written :: f.first <= p < f.beyond)
    && (f.Retrying? ==> f.first <= f.page < f.beyond)
  }

  ghost predicate Shape(s: State) {
    && |s.cache| == |s.disk| && (forall p | p in s.dirty :: p < |s.cache|)
    && (forall w | 0 <= w < |s.writers| :: WriterInRange(s.writers[w], |s.cache|))
    && (forall f | 0 <= f < |s.flushers| :: FlusherInRange(s.flushers[f], |s.cache|))
  }

  /** A writer has stored into the page, or may have, and has not marked it yet. */
  ghost predicate Pending(w: Writer, p: nat) {
    w.Storing? && w.first <= p <= w.page
  }

  /** A flusher has the page and has not written it since, or is going to mark it again. */
  ghost predicate Held(f: Flusher, p: nat) {
    match f
    case Looking => false
    case Writing(first, beyond, written) => first <= p < beyond && p !in written
    case Retrying(first, beyond, page, verify) => first <= p < beyond && (page <= p || verify)
    case Releasing(first, beyond, remark) => first <= p < beyond && remark
  }

  ghost predicate Covered(s: State, p: nat) {
    || p in s.dirty || p in s.hard
    || (exists w | 0 <= w < |s.writers| :: Pending(s.writers[w], p))
    || (exists f | 0 <= f < |s.flushers| :: Held(s.flushers[f], p))
  }

  ghost predicate Differs(s: State, p: nat) {
    p < |s.cache| && p < |s.disk| && s.cache[p] != s.disk[p]
  }

  /** Wherever cache and disk differ, somebody answers for the page, unless a mark could not be set. */
  ghost predicate Safe(s: State) {
    Shape(s) && forall p: nat | Differs(s, p) :: Covered(s, p) || p in s.unmarked
  }

  lemma StepKeepsShape(s: State, a: Action)
    requires Shape(s) && Possible(s, a)
    ensures Shape(After(s, a))
  {
  }

  /** A step that neither stores into, nor tears, nor stops answering for a page leaves it covered. */
  lemma StepCovers(s: State, a: Action, p: nat)
    requires Shape(s) && Possible(s, a) && Differs(After(s, a), p)
    requires Differs(s, p) ==> Covered(s, p) || p in s.unmarked
    ensures Covered(After(s, a), p) || p in After(s, a).unmarked
  {
    var s' := After(s, a);
    if w :| 0 <= w < |s.writers| && Pending(s.writers[w], p) {
      assert Pending(s'.writers[w], p) || p in s'.dirty || p in s'.unmarked;
    } else if f :| 0 <= f < |s.flushers| && Held(s.flushers[f], p) {
      assert Held(s'.flushers[f], p) || p in s'.dirty || p in s'.unmarked || p in s'.hard;
    } else if a.Store? {
      assert p == s.writers[a.w].page ==> Pending(s'.writers[a.w], p);
    } else if a.Acquire? {
      assert p in s.dirty && p !in s'.dirty ==> Held(s'.flushers[a.f], p);
    }
  }

  lemma StepKeepsSafe(s: State, a: Action)
    requires Safe(s) && Possible(s, a)
    ensures Safe(After(s, a))
  {
    StepKeepsShape(s, a);
    forall p: nat | Differs(After(s, a), p) ensures Covered(After(s, a), p) || p in After(s, a).unmarked {
      StepCovers(s, a, p);
    }
  }

  // ----- Runs --------------------------------------------------------------------------------------

  datatype Run = Run(actions: seq<Action>, states: seq<State>)

  /** Cache and disk start out alike, with nobody at work. */
  ghost predicate Initial(s: State) {
    && s.cache == s.disk && s.dirty == s.hard == s.unmarked == {}
    && (forall w | 0 <= w < |s.writers| :: s.writers[w].Away?)
    && (forall f | 0 <= f < |s.flushers| :: s.flushers[f].Looking?)
  }

  ghost predicate IsRun(r: Run) {
    && |r.states| == |r.actions| + 1 && Initial(r.states[0])
    && (forall i | 0 <= i < |r.states| :: Shape(r.states[i]))
    && (forall i | 0 <= i < |r.actions| ::
          Possible(r.states[i], r.actions[i]) && r.states[i + 1] == After(r.states[i], r.actions[i]))
  }

  /** No dirty data is lost, in any interleaving: at every moment, a page on which cache and disk differ is
      marked, or has a writer about to mark it, or is held by a flusher about to write or mark it, or was given
      up with a hard error, or could not be marked. */
  lemma {:induction false} NothingIsLost(r: Run, i: nat)
    requires IsRun(r) && i < |r.states|
    ensures Safe(r.states[i])
  {
    if i > 0 {
      NothingIsLost(r, i - 1);
      StepKeepsSafe(r.states[i - 1], r.actions[i - 1]);
    }
  }

  /** A mark, or a mark set again, whose allocation failed. */
  predicate MarkFails(a: Action) {
    (a.Mark? || a.Release?) && !a.ok
  }

  lemma {:induction false} AllMarked(r: Run, i: nat)
    requires IsRun(r) && i < |r.states| && forall k | 0 <= k < i :: !MarkFails(r.actions[k])
    ensures r.states[i].unmarked == {}
  {
    if i > 0 { AllMarked(r, i - 1); }
  }

  /** When the work is done and nothing failed, the disk holds what the cache holds. */
  lemma AtRestNothingDiffers(r: Run, i: nat)
    requires IsRun(r) && i < |r.states| && forall k | 0 <= k < i :: !MarkFails(r.actions[k])
    requires var s := r.states[i];
             && s.dirty == s.hard == {}
             && (forall w | 0 <= w < |s.writers| :: s.writers[w].Away?)
             && (forall f | 0 <= f < |s.flushers| :: s.flushers[f].Looking?)
    ensures r.states[i].cache == r.states[i].disk
  {
    var s := r.states[i];
    NothingIsLost(r, i);
    AllMarked(r, i);
    forall p: nat | p < |s.cache| ensures s.cache[p] == s.disk[p] {
      assert Differs(s, p) ==> Covered(s, p);
    }
  }

  // ----- What a failed mark costs ------------------------------------------------------------------

  /** Safe without the excuse that a mark could not be set. */
  ghost predicate Tracked(s: State) {
    Shape(s) && forall p: nat | Differs(s, p) :: Covered(s, p)
  }

  /** The pages that the step is to mark. */
  ghost function ToMark(s: State, a: Action): set<nat>
    requires Shape(s) && Possible(s, a)
  {
    match a
    case Mark(w, _) => Span(s.writers[w].first, s.writers[w].last + 1)
    case Release(f, _) => if s.flushers[f].remark then Span(s.flushers[f].first, s.flushers[f].beyond) else {}
    case _ => {}
  }

  /** Nobody but the one about to mark the page answers for it. */
  ghost predicate OnlyMarkerCovers(s: State, a: Action, p: nat)
    requires Shape(s) && Possible(s, a)
  {
    && p !in s.dirty && p !in s.hard
    && (forall w | 0 <= w < |s.writers| :: !Pending(s.writers[w], p) || (a.Mark? && a.w == w))
    && (forall f | 0 <= f < |s.flushers| :: !Held(s.flushers[f], p) || (a.Release? && a.f == f))
  }

  lemma FailedMarkCovers(s: State, a: Action, p: nat)
    requires Shape(s) && Possible(s, a) && MarkFails(a) && Covered(s, p)
    requires !(p in ToMark(s, a) && OnlyMarkerCovers(s, a, p))
    ensures Covered(After(s, a), p)
  {
    var s' := After(s, a);
    if w :| 0 <= w < |s.writers| && Pending(s.writers[w], p) && !(a.Mark? && a.w == w) {
      assert Pending(s'.writers[w], p);
    } else if f :| 0 <= f < |s.flushers| && Held(s.flushers[f], p) && !(a.Release? && a.f == f) {
      assert Held(s'.flushers[f], p);
    }
  }

  lemma TrackedStep(s: State, a: Action, p: nat)
    requires Shape(s) && Possible(s, a) && (Differs(s, p) ==> Covered(s, p)) && Differs(After(s, a), p)
    requires !(MarkFails(a) && p in ToMark(s, a) && Differs(s, p) && OnlyMarkerCovers(s, a, p))
    ensures Covered(After(s, a), p)
  {
    hide Shape, Possible, After, Covered, Differs, OnlyMarkerCovers;
    SamePages(s, p);
    if MarkFails(a) {
      OnlyMarksChange(s, a, p);
      FailedMarkCovers(s, a, p);
    } else {
      MarksAreSet(s, a);
      SamePages(After(s, a), p);
      StepCovers(s.(unmarked := {}), a, p);
    }
  }

  /** What nobody was told does not matter to the rest. */
  lemma SamePages(s: State, p: nat)
    ensures Shape(s.(unmarked := {})) <==> Shape(s)
    ensures Differs(s.(unmarked := {}), p) <==> Differs(s, p)
    ensures Covered(s.(unmarked := {}), p) <==> Covered(s, p)
  {
  }

  lemma OnlyMarksChange(s: State, a: Action, p: nat)
    requires Shape(s) && Possible(s, a) && MarkFails(a)
    ensures Differs(After(s, a), p) <==> Differs(s, p)
  {
  }

  lemma MarksAreSet(s: State, a: Action)
    requires Shape(s) && Possible(s, a) && !MarkFails(a)
    ensures Possible(s.(unmarked := {}), a) && After(s.(unmarked := {}), a) == After(s, a).(unmarked := {})
  {
  }

  /** A step drops a page silently if and only if it fails to mark a page that differs from the disk and that
      nobody else answers for. */
  lemma DropsSilentlyIff(s: State, a: Action)
    requires Tracked(s) && Possible(s, a)
    ensures Tracked(After(s, a)) <==>
              !(MarkFails(a) && exists p | p in ToMark(s, a) :: Differs(s, p) && OnlyMarkerCovers(s, a, p))
  {
    StepKeepsShape(s, a);
    var s' := After(s, a);
    if MarkFails(a) && exists p | p in ToMark(s, a) :: Differs(s, p) && OnlyMarkerCovers(s, a, p) {
      var p :| p in ToMark(s, a) && Differs(s, p) && OnlyMarkerCovers(s, a, p);
      assert Differs(s', p) && !Covered(s', p);
    } else {
      forall p: nat | Differs(s', p) ensures Covered(s', p) {
        TrackedStep(s, a, p);
      }
    }
  }

  function Last(r: Run): State
    requires r.states != []
  {
    r.states[|r.states| - 1]
  }

  lemma Extend(r: Run, a: Action, now: State) returns (longer: Run)
    requires IsRun(r) && Possible(Last(r), a) && now == After(Last(r), a)
    ensures IsRun(longer) && Last(longer) == now
  {
    StepKeepsShape(Last(r), a);
    longer := Run(r.actions + [a], r.states + [now]);
  }

  lemma MarkedPage() returns (r: Run)
    ensures IsRun(r) && Last(r) == State([1], [0], {0}, [Away], [Looking], {}, {})
  {
    var s := State([0], [0], {}, [Away], [Looking], {}, {});
    r := Run([], [s]);
    s := s.(writers := [Storing(0, 0, 0)]);
    r := Extend(r, BeginWrite(0, 0, 0), s);
    s := s.(cache := [1]);
    r := Extend(r, Store(0, 1), s);
    s := s.(writers := [Away], dirty := {0});
    r := Extend(r, Mark(0, true), s);
  }

  /** Such a step exists: a page is written to, marked, acquired, taken for a hot spot, and cannot be marked
      again. No error was reported. */
  lemma SilentDropExists() returns (r: Run)
    ensures IsRun(r) && Last(r).hard == {} && Differs(Last(r), 0) && !Covered(Last(r), 0)
  {
    hide IsRun;
    r := MarkedPage();
    var s := Last(r).(flushers := [Writing(0, 1, {})], dirty := {});
    r := Extend(r, Acquire(0, 0, 1), s);
    s := s.(flushers := [Releasing(0, 1, true)]);
    r := Extend(r, SkipHotSpot(0), s);
    s := s.(flushers := [Looking], unmarked := {0});
    r := Extend(r, Release(0, false), s);
  }
}
