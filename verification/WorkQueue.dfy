/**
 The lazy writer's worker threads: CcPostWorkQueue and the loop of CcWorkerThread. Each section under the work
 queue lock is one step, and each run of a work item ends in a step of its own.
 */
module WorkQueue {

  datatype Kind = ReadAhead | WriteBehind | EventSet | LazyWriteScan

  /** A work item; `id` counts the posts. */
  datatype Entry = Entry(id: nat, kind: Kind)

  datatype Queue = Express | Regular

  datatype Requeue = Nothing | Again(queue: Queue, entry: Entry)

  /** A thread is on the idle list, or about to take the lock with DropThrottle and a requeue request pending,
      or processing an item. */
  datatype Worker = Idle | Ready(drop: bool, back: Requeue) | Running(queue: Queue, entry: Entry)

  datatype Posted = Posted(kind: Kind, queue: Queue)

  /** `posts` is the history of posts, `ran` are the ids of the items that have completed a run. */
  datatype State = State(
    express: seq<Entry>, regular: seq<Entry>, throttle: bool, active: nat, idle: seq<nat>,
    workers: seq<Worker>, posts: seq<Posted>, ran: set<nat>)

  datatype Action = Post(kind: Kind, queue: Queue) | Take(w: nat) | RunEnds(w: nat, requeue: bool)

  /** EventSet only ever goes to the regular queue, and only a WriteBehind asks to be requeued. */
  predicate Possible(s: State, a: Action) {
    match a
    case Post(kind, queue) => kind.EventSet? ==> queue.Regular?
    case Take(w) => w < |s.workers| && s.workers[w].Ready?
    case RunEnds(w, requeue) =>
      w < |s.workers| && s.workers[w].Running? && (requeue ==> s.workers[w].entry.kind.WriteBehind?)
  }

  function Append(s: State, queue: Queue, entry: Entry): State {
    if queue.Express? then s.(express := s.express + [entry]) else s.(regular := s.regular + [entry])
  }

  /** CcPostWorkQueue: queue the entry, and wake an idle thread unless throttled. */
  function AfterPost(s: State, kind: Kind, queue: Queue): State
    requires forall i | 0 <= i < |s.idle| :: s.idle[i] < |s.workers|
  {
    var s1 := Append(s, queue, Entry(|s.posts|, kind)).(posts := s.posts + [Posted(kind, queue)]);
    if !s.throttle && s.idle != [] then
      s1.(idle := s.idle[1..], active := s.active + 1, workers := s.workers[s.idle[0] := Ready(false, Nothing)])
    else s1
  }

  /** The start of a section of CcWorkerThread: drop the throttle, put a requeued item back. */
  function Settled(s: State, w: nat): State
    requires w < |s.workers| && s.workers[w].Ready?
  {
    var s1 := if s.workers[w].drop then s.(throttle := false) else s;
    var s2 := if s.workers[w].back.Again? then Append(s1, s.workers[w].back.queue, s.workers[w].back.entry) else s1;
    s2.(workers := s.workers[w := Ready(false, Nothing)])
  }

  function GoIdle(s: State, w: nat): State
    requires w < |s.workers| && s.active > 0
  {
    s.(idle := s.idle + [w], active := s.active - 1, workers := s.workers[w := Idle])
  }

  /** The rest of the section: take the first item of the express queue, else of the regular queue. An
      EventSet is only taken by the last active thread; the others set the throttle and go idle. */
  function Taken(s: State, w: nat): State
    requires w < |s.workers| && s.active > 0
  {
    if s.express == [] && s.regular == [] then GoIdle(s, w)
    else
      var queue := if s.express != [] then Express else Regular;
      var entry := if s.express != [] then s.express[0] else s.regular[0];
      if entry.kind.EventSet? && s.active > 1 then GoIdle(s.(throttle := true), w)
      else
        var s1 := s.(workers := s.workers[w := Running(queue, entry)]);
        if queue.Express? then s1.(express := s.express[1..]) else s1.(regular := s.regular[1..])
  }

  function AfterRun(s: State, w: nat, requeue: bool): State
    requires w < |s.workers| && s.workers[w].Running?
  {
    var at := s.workers[w];
    s.(workers := s.workers[w := Ready(at.entry.kind.EventSet?, if requeue then Again(at.queue, at.entry) else Nothing)],
       ran := s.ran + {at.entry.id})
  }

  function After(s: State, a: Action): State
    requires Counted(s) && Possible(s, a)
  {
    match a
    case Post(kind, queue) => AfterPost(s, kind, queue)
    case Take(w) => BusyIsActive(s, w); Taken(Settled(s, w), w)
    case RunEnds(w, requeue) => AfterRun(s, w, requeue)
  }

  // ----- Counting threads --------------------------------------------------------------------------

  predicate NoDuplicates(q: seq<nat>) {
    forall i, j | 0 <= i < j < |q| :: q[i] != q[j]
  }

  /** The idle list holds exactly the idle threads, and the other threads are counted as active. */
  predicate Counted(s: State) {
    && s.active + |s.idle| == |s.workers| && NoDuplicates(s.idle)
    && (forall i | 0 <= i < |s.idle| :: s.idle[i] < |s.workers| && s.workers[s.idle[i]].Idle?)
    && (forall w | 0 <= w < |s.workers| && s.workers[w].Idle? :: w in s.idle)
  }

  ghost function Below(n: nat): (r: set<nat>)
    ensures forall x: nat :: x in r <==> x < n
    ensures |r| == n
  {
    if n == 0 then {} else
      var r: set<nat> := Below(n - 1);
      r + {n - 1}
  }

  lemma {:induction false} IdleCount(q: seq<nat>, inside: set<nat>)
    requires NoDuplicates(q) && forall i | 0 <= i < |q| :: q[i] in inside
    ensures |q| <= |inside|
  {
    if q != [] {
      var last := q[|q| - 1];
      IdleCount(q[..|q| - 1], inside - {last});
    }
  }

  lemma BusyIsActive(s: State, w: nat)
    requires Counted(s) && w < |s.workers| && !s.workers[w].Idle?
    ensures s.active > 0
  {
    IdleCount(s.idle, Below(|s.workers|) - {w});
  }

  /** When one thread is active, all others are idle. */
  lemma LastActive(s: State, w: nat, u: nat)
    requires Counted(s) && s.active == 1 && w < |s.workers| && u < |s.workers| && u != w && !s.workers[w].Idle?
    ensures s.workers[u].Idle?
  {
    if !s.workers[u].Idle? {
      IdleCount(s.idle, Below(|s.workers|) - {w} - {u});
    }
  }

  lemma WakeKeepsCount(s: State, s': State)
    requires Counted(s) && s.idle != []
    requires s'.idle == s.idle[1..] && s'.active == s.active + 1
    requires s'.workers == s.workers[s.idle[0] := Ready(false, Nothing)]
    ensures Counted(s')
  {
    assert forall i | 0 <= i < |s'.idle| :: s'.idle[i] == s.idle[i + 1];
    forall w | 0 <= w < |s'.workers| && s'.workers[w].Idle? ensures w in s'.idle {
      assert w in s.idle && w != s.idle[0];
    }
  }

  lemma IdlingKeepsCount(s: State, w: nat)
    requires Counted(s) && w < |s.workers| && !s.workers[w].Idle? && s.active > 0
    ensures Counted(GoIdle(s, w))
  {
    var s' := GoIdle(s, w);
    forall i, j | 0 <= i < j < |s'.idle| ensures s'.idle[i] != s'.idle[j] {
      assert s'.idle[i] == s.idle[i];
    }
    forall u | 0 <= u < |s'.workers| && s'.workers[u].Idle? ensures u in s'.idle {
      assert u == w || u in s.idle;
      assert s'.idle[|s.idle|] == w;
    }
  }

  /** A busy thread stays busy. */
  lemma SameCount(s: State, s': State, w: nat)
    requires Counted(s) && w < |s.workers| && !s.workers[w].Idle? && s'.idle == s.idle && s'.active == s.active
    requires |s'.workers| == |s.workers| && s'.workers == s.workers[w := s'.workers[w]] && !s'.workers[w].Idle?
    ensures Counted(s')
  {
  }

  lemma StepKeepsCount(s: State, a: Action)
    requires Counted(s) && Possible(s, a)
    ensures Counted(After(s, a)) && |After(s, a).workers| == |s.workers|
  {
    var s' := After(s, a);
    match a
    case Post(_, _) =>
      if !s.throttle && s.idle != [] { WakeKeepsCount(s, s'); }
    case RunEnds(w, _) => SameCount(s, s', w);
    case Take(w) =>
      BusyIsActive(s, w);
      var s1 := Settled(s, w);
      SameCount(s, s1, w);
      if s'.active == s1.active {
        SameCount(s1, s', w);
      } else {
        IdlingKeepsCount(s1, w);
        IdlingKeepsCount(s1.(throttle := true), w);
      }
  }

  // ----- Order -------------------------------------------------------------------------------------

  predicate EntryOk(s: State, e: Entry, queue: Queue) {
    e.id < |s.posts| && s.posts[e.id] == Posted(e.kind, queue)
  }

  predicate WorkerOk(s: State, w: Worker) {
    match w
    case Idle => true
    case Ready(_, back) => back.Again? ==> EntryOk(s, back.entry, back.queue) && back.entry.kind.WriteBehind? && back.entry.id in s.ran
    case Running(queue, entry) => EntryOk(s, entry, queue)
  }

  predicate EntriesOk(s: State) {
    && (forall i | 0 <= i < |s.express| :: EntryOk(s, s.express[i], Express))
    && (forall i | 0 <= i < |s.regular| :: EntryOk(s, s.regular[i], Regular))
    && (forall w | 0 <= w < |s.workers| :: WorkerOk(s, s.workers[w]))
    && (forall id | id in s.ran :: id < |s.posts|)
    && (forall i | 0 <= i < |s.posts| && s.posts[i].kind.EventSet? :: s.posts[i].queue.Regular?)
  }

  /** The items of the regular queue that have not run yet are in the order of their posts, behind those that
      are being run for the first time. An EventSet runs once. */
  predicate InOrder(s: State) {
    && (forall i, j | 0 <= i < j < |s.regular| && s.regular[i].id !in s.ran && s.regular[j].id !in s.ran ::
          s.regular[i].id < s.regular[j].id)
    && (forall w, i | 0 <= w < |s.workers| && 0 <= i < |s.regular| && s.workers[w].Running? &&
          s.workers[w].queue.Regular? && s.workers[w].entry.id !in s.ran && s.regular[i].id !in s.ran ::
          s.workers[w].entry.id < s.regular[i].id)
    && (forall i | 0 <= i < |s.regular| && s.regular[i].kind.EventSet? :: s.regular[i].id !in s.ran)
  }

  predicate Queued(q: seq<Entry>, id: nat) {
    exists i | 0 <= i < |q| :: q[i].id == id
  }

  predicate BeingRun(s: State, id: nat) {
    exists w | 0 <= w < |s.workers| :: s.workers[w].Running? && s.workers[w].entry.id == id
  }

  predicate Kept(s: State, id: nat) {
    id in s.ran || Queued(s.express, id) || Queued(s.regular, id) || BeingRun(s, id)
  }

  /** Nothing posted disappears before it has run. */
  predicate NothingDropped(s: State) {
    forall id | 0 <= id < |s.posts| :: Kept(s, id)
  }

  lemma PostKeepsEntries(s: State, kind: Kind, queue: Queue)
    requires Counted(s) && (kind.EventSet? ==> queue.Regular?) && EntriesOk(s)
    ensures EntriesOk(AfterPost(s, kind, queue))
  {
  }

  lemma SettlingKeepsEntries(s: State, w: nat)
    requires Counted(s) && w < |s.workers| && s.workers[w].Ready? && EntriesOk(s)
    ensures EntriesOk(Settled(s, w))
  {
  }

  lemma TakingKeepsEntries(s: State, w: nat)
    requires Counted(s) && w < |s.workers| && s.workers[w] == Ready(false, Nothing) && s.active > 0 && EntriesOk(s)
    ensures EntriesOk(Taken(s, w))
  {
  }

  lemma RunningKeepsEntries(s: State, w: nat, requeue: bool)
    requires Counted(s) && w < |s.workers| && s.workers[w].Running? && (requeue ==> s.workers[w].entry.kind.WriteBehind?) && EntriesOk(s)
    ensures EntriesOk(AfterRun(s, w, requeue))
  {
  }

  lemma PostKeepsOrder(s: State, kind: Kind, queue: Queue)
    requires Counted(s) && (kind.EventSet? ==> queue.Regular?) && EntriesOk(s) && InOrder(s)
    ensures InOrder(AfterPost(s, kind, queue))
  {
  }

  lemma SettlingKeepsOrder(s: State, w: nat)
    requires Counted(s) && w < |s.workers| && s.workers[w].Ready? && EntriesOk(s) && InOrder(s)
    ensures InOrder(Settled(s, w))
  {
  }

  lemma TakingKeepsOrder(s: State, w: nat)
    requires Counted(s) && w < |s.workers| && s.workers[w] == Ready(false, Nothing) && s.active > 0 && EntriesOk(s) && InOrder(s)
    ensures InOrder(Taken(s, w))
  {
  }

  lemma RunningKeepsOrder(s: State, w: nat, requeue: bool)
    requires Counted(s) && w < |s.workers| && s.workers[w].Running? && (requeue ==> s.workers[w].entry.kind.WriteBehind?) && EntriesOk(s) && InOrder(s)
    ensures InOrder(AfterRun(s, w, requeue))
  {
  }

  /** Queues that only grow, and threads that keep what they run, keep every item. */
  lemma StillKept(s: State, s': State, id: nat, express: seq<Entry>, regular: seq<Entry>)
    requires Kept(s, id) && s.ran <= s'.ran && s'.express == s.express + express && s'.regular == s.regular + regular
    requires |s.workers| == |s'.workers|
    requires forall w | 0 <= w < |s.workers| && s.workers[w].Running? ::
               s'.workers[w] == s.workers[w] || s.workers[w].entry.id in s'.ran
    ensures Kept(s', id)
  {
    if i :| 0 <= i < |s.express| && s.express[i].id == id {
      assert s'.express[i].id == id;
    } else if i :| 0 <= i < |s.regular| && s.regular[i].id == id {
      assert s'.regular[i].id == id;
    } else if w :| 0 <= w < |s.workers| && s.workers[w].Running? && s.workers[w].entry.id == id {
      assert s'.workers[w] == s.workers[w] || id in s'.ran;
    }
  }

  lemma PostKeepsAll(s: State, kind: Kind, queue: Queue)
    requires Counted(s) && NothingDropped(s)
    ensures NothingDropped(AfterPost(s, kind, queue))
  {
    var s' := AfterPost(s, kind, queue);
    var e := Entry(|s.posts|, kind);
    forall id | 0 <= id < |s'.posts| ensures Kept(s', id) {
      if id == |s.posts| {
        assert if queue.Express? then s'.express[|s.express|].id == id else s'.regular[|s.regular|].id == id;
      } else {
        assert s.express == s.express + [] && s.regular == s.regular + [];
        StillKept(s, s', id, if queue.Express? then [e] else [], if queue.Express? then [] else [e]);
      }
    }
  }

  lemma SettlingKeepsAll(s: State, w: nat)
    requires w < |s.workers| && s.workers[w].Ready? && NothingDropped(s)
    ensures NothingDropped(Settled(s, w))
  {
    var s', back := Settled(s, w), s.workers[w].back;
    assert s.express == s.express + [] && s.regular == s.regular + [];
    forall id | 0 <= id < |s'.posts| ensures Kept(s', id) {
      StillKept(s, s', id, if back.Again? && back.queue.Express? then [back.entry] else [],
                if back.Again? && back.queue.Regular? then [back.entry] else []);
    }
  }

  lemma RunningKeepsAll(s: State, w: nat, requeue: bool)
    requires w < |s.workers| && s.workers[w].Running? && NothingDropped(s)
    ensures NothingDropped(AfterRun(s, w, requeue))
  {
    var s' := AfterRun(s, w, requeue);
    assert s.express == s.express + [] && s.regular == s.regular + [];
    forall id | 0 <= id < |s'.posts| ensures Kept(s', id) {
      StillKept(s, s', id, [], []);
    }
  }

  lemma TakingKeepsAll(s: State, w: nat)
    requires w < |s.workers| && s.workers[w] == Ready(false, Nothing) && s.active > 0 && NothingDropped(s)
    ensures NothingDropped(Taken(s, w))
  {
    var s' := Taken(s, w);
    assert s.express == s.express + [] && s.regular == s.regular + [];
    forall id | 0 <= id < |s'.posts| ensures Kept(s', id) {
      assert Kept(s, id);
      if s'.express == s.express && s'.regular == s.regular {
        StillKept(s, s', id, [], []);
      } else {
        assert s'.workers[w].Running?;
        if i :| 0 <= i < |s.express| && s.express[i].id == id {
          assert i == 0 || s'.express[i - 1].id == id;
        } else if i :| 0 <= i < |s.regular| && s.regular[i].id == id {
          assert s'.regular == s.regular || i == 0 || s'.regular[i - 1].id == id;
          assert s'.regular == s.regular ==> s'.regular[i].id == id;
        } else if u :| 0 <= u < |s.workers| && s.workers[u].Running? && s.workers[u].entry.id == id {
          assert s'.workers[u] == s.workers[u];
        }
      }
    }
  }

  // ----- The throttle, and work that waits ---------------------------------------------------------

  /** The throttle is on only while an EventSet is queued, or run by a thread that will drop it. */
  predicate ThrottleHasReason(s: State) {
    s.throttle ==>
      || (exists i | 0 <= i < |s.regular| :: s.regular[i].kind.EventSet?)
      || (exists w | 0 <= w < |s.workers| :: Dropping(s.workers[w]))
  }

  predicate Dropping(w: Worker) {
    (w.Ready? && w.drop) || (w.Running? && w.entry.kind.EventSet?)
  }

  /** Work is never left to nobody. */
  predicate NotStranded(s: State) {
    s.express != [] || s.regular != [] ==> s.active > 0
  }

  lemma PostKeepsThrottle(s: State, kind: Kind, queue: Queue)
    requires Counted(s) && |s.workers| > 0 && ThrottleHasReason(s) && NotStranded(s)
    ensures ThrottleHasReason(AfterPost(s, kind, queue)) && NotStranded(AfterPost(s, kind, queue))
  {
    var s' := AfterPost(s, kind, queue);
    if s.throttle {
      if i :| 0 <= i < |s.regular| && s.regular[i].kind.EventSet? {
        assert s'.regular[i].kind.EventSet?;
      } else {
        var w :| 0 <= w < |s.workers| && Dropping(s.workers[w]);
        assert Dropping(s'.workers[w]);
        BusyIsActive(s, w);
      }
    }
  }

  lemma SettlingKeepsThrottle(s: State, w: nat)
    requires Counted(s) && w < |s.workers| && s.workers[w].Ready? && ThrottleHasReason(s)
    ensures ThrottleHasReason(Settled(s, w))
  {
    var s' := Settled(s, w);
    if s'.throttle {
      if i :| 0 <= i < |s.regular| && s.regular[i].kind.EventSet? {
        assert s'.regular[i].kind.EventSet?;
      } else {
        var u :| 0 <= u < |s.workers| && Dropping(s.workers[u]);
        assert Dropping(s'.workers[u]);
      }
    }
  }

  lemma TakingKeepsThrottle(s: State, w: nat)
    requires Counted(s) && w < |s.workers| && s.workers[w] == Ready(false, Nothing) && s.active > 0
    requires EntriesOk(s) && ThrottleHasReason(s)
    ensures ThrottleHasReason(Taken(s, w)) && NotStranded(Taken(s, w))
  {
    var s' := Taken(s, w);
    if s'.throttle {
      if i :| 0 <= i < |s.regular| && s.regular[i].kind.EventSet? {
        if s'.regular == s.regular {
          assert s'.regular[i].kind.EventSet?;
        } else if i == 0 {
          assert Dropping(s'.workers[w]);
        } else {
          assert s'.regular[i - 1].kind.EventSet?;
        }
      } else if s.throttle {
        var u :| 0 <= u < |s.workers| && Dropping(s.workers[u]);
        assert Dropping(s'.workers[u]);
      }
    }
  }

  lemma RunningKeepsThrottle(s: State, w: nat, requeue: bool)
    requires Counted(s) && w < |s.workers| && s.workers[w].Running? && ThrottleHasReason(s) && NotStranded(s)
    ensures ThrottleHasReason(AfterRun(s, w, requeue)) && NotStranded(AfterRun(s, w, requeue))
  {
    var s' := AfterRun(s, w, requeue);
    if s.throttle && !exists i | 0 <= i < |s.regular| :: s.regular[i].kind.EventSet? {
      var u :| 0 <= u < |s.workers| && Dropping(s.workers[u]);
      assert Dropping(s'.workers[u]);
    }
  }

  // ----- Runs --------------------------------------------------------------------------------------

  predicate Inv(s: State) {
    && Counted(s) && |s.workers| > 0 && EntriesOk(s) && InOrder(s) && NothingDropped(s)
    && ThrottleHasReason(s) && NotStranded(s)
  }

  lemma StepKeepsInv(s: State, a: Action)
    requires Inv(s) && Possible(s, a)
    ensures Inv(After(s, a)) && |After(s, a).workers| == |s.workers|
  {
    hide Counted, EntriesOk, InOrder, NothingDropped, ThrottleHasReason, NotStranded;
    StepKeepsCount(s, a);
    match a
    case Post(kind, queue) =>
      PostKeepsEntries(s, kind, queue); PostKeepsOrder(s, kind, queue); PostKeepsAll(s, kind, queue);
      PostKeepsThrottle(s, kind, queue);
    case RunEnds(w, requeue) =>
      RunningKeepsEntries(s, w, requeue); RunningKeepsOrder(s, w, requeue); RunningKeepsAll(s, w, requeue);
      RunningKeepsThrottle(s, w, requeue);
    case Take(w) =>
      BusyIsActive(s, w);
      var s1 := Settled(s, w);
      SameCount(s, s1, w);
      SettlingKeepsEntries(s, w); SettlingKeepsOrder(s, w); SettlingKeepsAll(s, w); SettlingKeepsThrottle(s, w);
      TakingKeepsEntries(s1, w); TakingKeepsOrder(s1, w); TakingKeepsAll(s1, w); TakingKeepsThrottle(s1, w);
  }

  datatype Run = Run(actions: seq<Action>, states: seq<State>)

  /** CcInitializeCacheManager: all threads idle, both queues empty. */
  function Initial(threads: nat): State {
    State([], [], false, 0, seq(threads, i => i), seq(threads, _ => Idle), [], {})
  }

  predicate IsRun(r: Run, threads: nat) {
    && |r.states| == |r.actions| + 1 && r.states[0] == Initial(threads) && threads > 0
    && (forall i | 0 <= i < |r.states| :: Counted(r.states[i]))
    && (forall i {:trigger r.actions[i]} | 0 <= i < |r.actions| ::
          Possible(r.states[i], r.actions[i]) && r.states[i + 1] == After(r.states[i], r.actions[i]))
  }

  lemma InitialInv(threads: nat)
    requires threads > 0
    ensures Inv(Initial(threads))
  {
    var s := Initial(threads);
    assert |s.workers| == |s.idle| == threads;
    forall w | 0 <= w < |s.workers| ensures w in s.idle && WorkerOk(s, s.workers[w]) {
      assert s.idle[w] == w;
    }
    assert Counted(s);
    assert EntriesOk(s);
    assert InOrder(s);
    assert NothingDropped(s);
  }

  lemma {:induction false} InvHolds(r: Run, threads: nat, i: nat)
    requires IsRun(r, threads) && i < |r.states|
    ensures Inv(r.states[i]) && |r.states[i].workers| == threads
  {
    if i > 0 {
      InvHolds(r, threads, i - 1);
      StepKeepsInv(r.states[i - 1], r.actions[i - 1]);
    }
  }

  /** Active and idle threads are all the threads, the throttle has a reason, and work that waits has a thread
      to do it, in every state of every run. */
  lemma NoWorkIsStranded(r: Run, threads: nat, i: nat)
    requires IsRun(r, threads) && i < |r.states|
    ensures r.states[i].active + |r.states[i].idle| == threads
    ensures ThrottleHasReason(r.states[i])
    ensures r.states[i].express != [] || r.states[i].regular != [] ==> r.states[i].active > 0
  {
    InvHolds(r, threads, i);
  }

  lemma PostUnfolds(s: State, kind: Kind, queue: Queue)
    requires Inv(s) && (kind.EventSet? ==> queue.Regular?)
    ensures forall i | 0 <= i < |s.idle| :: s.idle[i] < |s.workers|
    ensures After(s, Post(kind, queue)) == AfterPost(s, kind, queue)
  {
  }

  // ----- The code of the steps ---------------------------------------------------------------------

  /** The queues as the C code changes them. `workers` holds each thread's local variables. */
  class WorkQueues {
    var express: seq<Entry>                       // CcExpressWorkQueue
    var regular: seq<Entry>                       // CcRegularWorkQueue
    var throttle: bool                            // CcQueueThrottle
    var active: nat                               // CcNumberActiveWorkerThreads
    var idle: seq<nat>                            // CcIdleWorkerThreadList
    var workers: seq<Worker>
    var posts: seq<Posted>
    ghost var ran: set<nat>

    ghost function Now(): State
      reads this
    {
      State(express, regular, throttle, active, idle, workers, posts, ran)
    }

    constructor (threads: nat)
      requires threads > 0
      ensures Now() == Initial(threads) && Inv(Now())
    {
      express, regular, throttle, active, posts, ran := [], [], false, 0, [], {};
      idle, workers := seq(threads, i => i), seq(threads, _ => Idle);
      new;
      InitialInv(threads);
    }

    /** CcPostWorkQueue. */
    method PostWorkQueue(kind: Kind, queue: Queue)
      requires Inv(Now()) && (kind.EventSet? ==> queue.Regular?)
      modifies this
      ensures Now() == After(old(Now()), Post(kind, queue)) && Inv(Now())
    {
      StepKeepsInv(Now(), Post(kind, queue));
      PostUnfolds(Now(), kind, queue);
      hide Inv, After;
      var entry := Entry(|posts|, kind);
      posts := posts + [Posted(kind, queue)];
      if queue.Express? {
        express := express + [entry];
      } else {
        regular := regular + [entry];
      }
      if !throttle && idle != [] {
        var thread := idle[0];
        idle, active := idle[1..], active + 1;
        workers := workers[thread := Ready(false, Nothing)];
      }
    }

    /** CcWorkerThread from where it acquires the lock to where it releases it. */
    method TakeWork(w: nat)
      requires Inv(Now()) && w < |workers| && workers[w].Ready?
      modifies this
      ensures Now() == After(old(Now()), Take(w)) && Inv(Now())
    {
      StepKeepsInv(Now(), Take(w));
      BusyIsActive(Now(), w);
      hide Inv, Counted, Settled, Taken;
      PutBack(w);
      TakeItem(w);
    }

    method PutBack(w: nat)
      requires w < |workers| && workers[w].Ready?
      modifies this
      ensures Now() == Settled(old(Now()), w)
    {
      if workers[w].drop {
        throttle := false;
      }
      if workers[w].back.Again? {
        if workers[w].back.queue.Express? {
          express := express + [workers[w].back.entry];
        } else {
          regular := regular + [workers[w].back.entry];
        }
      }
      workers := workers[w := Ready(false, Nothing)];
    }

    method TakeItem(w: nat)
      requires w < |workers| && active > 0
      modifies this
      ensures Now() == Taken(old(Now()), w)
    {
      var queue;
      if express != [] {
        queue := Express;
      } else if regular != [] {
        queue := Regular;
      } else {
        BecomeIdle(w);
        return;
      }
      var entry := if queue.Express? then express[0] else regular[0];
      if entry.kind.EventSet? && active > 1 {
        throttle := true;
        BecomeIdle(w);
        return;
      }
      if queue.Express? {
        express := express[1..];
      } else {
        regular := regular[1..];
      }
      workers := workers[w := Running(queue, entry)];
    }

    method BecomeIdle(w: nat)
      requires w < |workers| && active > 0
      modifies this
      ensures Now() == GoIdle(old(Now()), w)
    {
      idle, active, workers := idle + [w], active - 1, workers[w := Idle];
    }

    /** The end of a thread's work on an item. */
    method FinishWork(w: nat, requeue: bool)
      requires Inv(Now()) && w < |workers| && workers[w].Running? && (requeue ==> workers[w].entry.kind.WriteBehind?)
      modifies this
      ensures Now() == After(old(Now()), RunEnds(w, requeue)) && Inv(Now())
    {
      StepKeepsInv(Now(), RunEnds(w, requeue));
      hide EntriesOk, InOrder, NothingDropped, ThrottleHasReason, NotStranded, Counted;
      var queue, entry := workers[w].queue, workers[w].entry;
      ran := ran + {entry.id};
      workers := workers[w := Ready(entry.kind.EventSet?, if requeue then Again(queue, entry) else Nothing)];
    }
  }

  // ----- The barrier -------------------------------------------------------------------------------

  /** An item that has been posted and is not done for good. */
  predicate Outstanding(s: State, id: nat) {
    || Queued(s.express, id) || Queued(s.regular, id) || BeingRun(s, id)
    || exists w | 0 <= w < |s.workers| :: s.workers[w].Ready? && s.workers[w].back.Again? && s.workers[w].back.entry.id == id
  }

  lemma NoEventSetIsExpress(s: State)
    requires EntriesOk(s)
    ensures forall i | 0 <= i < |s.express| :: !s.express[i].kind.EventSet?
  {
  }

  lemma EventSetIsFirst(s: State)
    requires InOrder(s) && s.regular != [] && s.regular[0].kind.EventSet?
    ensures forall i | 0 <= i < |s.regular| && s.regular[i].id !in s.ran :: s.regular[0].id <= s.regular[i].id
  {
  }

  lemma PoppedAlone(s: State, w: nat)
    requires Inv(s) && w < |s.workers| && s.workers[w] == Ready(false, Nothing) && s.active > 0
    requires Taken(s, w).workers[w].Running? && Taken(s, w).workers[w].entry.kind.EventSet?
    ensures s.active == 1 && s.express == [] && s.regular != [] && s.regular[0] == Taken(s, w).workers[w].entry
    ensures forall u | 0 <= u < |s.workers| && u != w :: s.workers[u].Idle?
  {
    NoEventSetIsExpress(s);
    forall u | 0 <= u < |s.workers| && u != w ensures s.workers[u].Idle? {
      LastActive(s, w, u);
    }
  }

  lemma EarlierHaveRun(s: State, w: nat, id: nat)
    requires Inv(s) && w < |s.workers| && s.workers[w] == Ready(false, Nothing) && s.active > 0
    requires Taken(s, w).workers[w].Running? && Taken(s, w).workers[w].entry.kind.EventSet?
    requires id < Taken(s, w).workers[w].entry.id
    ensures id in s.ran
  {
    PoppedAlone(s, w);
    assert Kept(s, id);
    EventSetIsFirst(s);
  }

  lemma TakeUnfolds(s: State, w: nat)
    requires Inv(s) && w < |s.workers| && s.workers[w].Ready?
    ensures Inv(Settled(s, w)) && s.active > 0 && Settled(s, w).ran == s.ran && After(s, Take(w)) == Taken(Settled(s, w), w)
  {
    hide EntriesOk, InOrder, NothingDropped, ThrottleHasReason;
    BusyIsActive(s, w);
    SameCount(s, Settled(s, w), w);
    SettlingKeepsEntries(s, w); SettlingKeepsOrder(s, w); SettlingKeepsAll(s, w); SettlingKeepsThrottle(s, w);
  }

  /** EventSet is a barrier: when a thread takes it, no other thread is active, everything posted before it to
      either queue has completed a run, and what of that is still outstanding was put back on the queue. */
  lemma EventSetIsABarrier(r: Run, threads: nat, i: nat, w: nat)
    requires IsRun(r, threads) && i < |r.actions| && r.actions[i] == Take(w) && w < |r.states[i + 1].workers|
    requires r.states[i + 1].workers[w].Running? && r.states[i + 1].workers[w].entry.kind.EventSet?
    ensures var s, event := r.states[i + 1], r.states[i + 1].workers[w].entry.id;
            && (forall u | 0 <= u < |s.workers| && u != w :: s.workers[u].Idle?)
            && (forall id: nat | id < event :: id in r.states[i].ran)
            && (forall id: nat | id < event && Outstanding(s, id) :: Queued(s.regular, id))
  {
    InvHolds(r, threads, i);
    BarrierAt(r.states[i], w);
  }

  lemma BarrierAt(s: State, w: nat)
    requires Inv(s) && w < |s.workers| && s.workers[w].Ready? && After(s, Take(w)).workers[w].Running?
    requires After(s, Take(w)).workers[w].entry.kind.EventSet?
    ensures var s', event := After(s, Take(w)), After(s, Take(w)).workers[w].entry.id;
            && (forall u | 0 <= u < |s'.workers| && u != w :: s'.workers[u].Idle?)
            && (forall id: nat | id < event :: id in s.ran)
            && (forall id: nat | id < event && Outstanding(s', id) :: Queued(s'.regular, id))
  {
    TakeUnfolds(s, w);
    var s1 := Settled(s, w);
    PoppedAlone(s1, w);
    forall id: nat | id < After(s, Take(w)).workers[w].entry.id ensures id in s.ran {
      EarlierHaveRun(s1, w, id);
    }
  }

  /** What has run is what some thread has finished running. */
  lemma {:induction false} RanHasEnded(r: Run, threads: nat, i: nat, id: nat)
    requires IsRun(r, threads) && i < |r.states| && id in r.states[i].ran
    ensures exists k | 0 <= k < i :: Ends(r, k, id)
  {
    if i > 0 && id in r.states[i - 1].ran {
      RanHasEnded(r, threads, i - 1, id);
    } else {
      assert i > 0;
      assert r.states[i - 1 + 1] == After(r.states[i - 1], r.actions[i - 1]);
      assert Ends(r, i - 1, id);
    }
  }

  predicate Ends(r: Run, k: nat, id: nat)
    requires k < |r.actions| && k < |r.states|
  {
    r.actions[k].RunEnds? && Possible(r.states[k], r.actions[k]) && r.states[k].workers[r.actions[k].w].entry.id == id
  }

  lemma {:induction false} PostsOnlyGrow(r: Run, threads: nat, j: nat, k: nat)
    requires IsRun(r, threads) && j <= k < |r.states|
    ensures |r.states[j].posts| <= |r.states[k].posts|
    decreases k
  {
    if j < k {
      PostsOnlyGrow(r, threads, j, k - 1);
      assert r.states[k - 1 + 1] == After(r.states[k - 1], r.actions[k - 1]);
    }
  }

  /** The same, read off a run: an item posted at step `j`, before the EventSet was posted at step `k`, has been
      run to its end before the EventSet is taken at step `i`. */
  lemma EventSetFiresAfter(r: Run, threads: nat, j: nat, k: nat, i: nat, w: nat)
    requires IsRun(r, threads) && j < k && k < |r.actions| && i < |r.actions|
    requires r.actions[j].Post? && r.actions[k] == Post(EventSet, Regular) && r.actions[i] == Take(w)
    requires w < |r.states[i + 1].workers|
    requires r.states[i + 1].workers[w] == Running(Regular, Entry(|r.states[k].posts|, EventSet))
    ensures exists m | 0 <= m < i :: Ends(r, m, |r.states[j].posts|)
  {
    assert r.states[j + 1] == After(r.states[j], r.actions[j]);
    assert |r.states[j + 1].posts| == |r.states[j].posts| + 1;
    hide IsRun, Counted, Possible, After, Ends;
    PostsOnlyGrow(r, threads, j + 1, k);
    EventSetIsABarrier(r, threads, i, w);
    RanHasEnded(r, threads, i, |r.states[j].posts|);
  }

  function Last(r: Run): State
    requires r.states != []
  {
    r.states[|r.states| - 1]
  }

  lemma Extend(r: Run, threads: nat, a: Action, now: State) returns (longer: Run)
    requires IsRun(r, threads) && Possible(Last(r), a) && now == After(Last(r), a)
    ensures IsRun(longer, threads) && longer == Run(r.actions + [a], r.states + [now])
  {
    hide After, Possible, Counted, Initial;
    StepKeepsCount(Last(r), a);
    longer := Run(r.actions + [a], r.states + [now]);
  }

  lemma TwoPosts() returns (r: Run)
    ensures IsRun(r, 1) && r.states != []
    ensures Last(r) == State([], [Entry(0, WriteBehind), Entry(1, EventSet)], false, 1, [], [Ready(false, Nothing)],
                             [Posted(WriteBehind, Regular), Posted(EventSet, Regular)], {})
  {
    r := Run([], [Initial(1)]);
    hide IsRun;
    assert Initial(1).workers == [Idle] && Initial(1).idle == [0];
    var s := State([], [Entry(0, WriteBehind)], false, 1, [], [Ready(false, Nothing)], [Posted(WriteBehind, Regular)], {});
    r := Extend(r, 1, Post(WriteBehind, Regular), s);
    s := s.(regular := s.regular + [Entry(1, EventSet)], posts := s.posts + [Posted(EventSet, Regular)]);
    r := Extend(r, 1, Post(EventSet, Regular), s);
  }

  /** Completed a run is all that can be said: a requeued item is overtaken by an EventSet posted after it. */
  lemma RequeuedIsOvertaken() returns (r: Run)
    ensures IsRun(r, 1) && Last(r).workers == [Running(Regular, Entry(1, EventSet))] && Outstanding(Last(r), 0)
  {
    hide IsRun, Outstanding;
    var item, event := Entry(0, WriteBehind), Entry(1, EventSet);
    r := TwoPosts();
    var s := Last(r).(regular := [event], workers := [Running(Regular, item)]);
    r := Extend(r, 1, Take(0), s);
    s := s.(workers := [Ready(false, Again(Regular, item))], ran := {0});
    r := Extend(r, 1, RunEnds(0, true), s);
    s := s.(regular := [item], workers := [Running(Regular, event)]);
    r := Extend(r, 1, Take(0), s);
    QueuedIsOutstanding(s, 0);
  }

  lemma QueuedIsOutstanding(s: State, i: nat)
    requires i < |s.regular|
    ensures Outstanding(s, s.regular[i].id)
  {
  }

  // ----- Draining ----------------------------------------------------------------------------------

  function Load(w: Worker): nat {
    match w
    case Idle => 0
    case Ready(_, back) => if back.Again? then 4 else 1
    case Running(_, _) => 2
  }

  function Loads(ws: seq<Worker>): nat {
    if ws == [] then 0 else Load(ws[0]) + Loads(ws[1..])
  }

  /** How many more steps the threads can take if nothing is posted or requeued. */
  function Remaining(s: State): nat {
    3 * (|s.express| + |s.regular|) + Loads(s.workers)
  }

  lemma {:induction false} LoadsUpdate(ws: seq<Worker>, w: nat, now: Worker)
    requires w < |ws|
    ensures Loads(ws[w := now]) == Loads(ws) - Load(ws[w]) + Load(now)
  {
    if w == 0 {
      assert ws[w := now][1..] == ws[1..];
    } else {
      LoadsUpdate(ws[1..], w - 1, now);
      assert ws[w := now][1..] == ws[1..][w - 1 := now];
    }
  }

  predicate OnlyDrains(a: Action) {
    a.Take? || (a.RunEnds? && !a.requeue)
  }

  lemma SettlingKeepsRemaining(s: State, w: nat)
    requires w < |s.workers| && s.workers[w].Ready?
    ensures Remaining(Settled(s, w)) == Remaining(s)
  {
    LoadsUpdate(s.workers, w, Ready(false, Nothing));
  }

  lemma TakingDrains(s: State, w: nat)
    requires w < |s.workers| && s.workers[w] == Ready(false, Nothing) && s.active > 0
    ensures Remaining(Taken(s, w)) < Remaining(s)
  {
    LoadsUpdate(s.workers, w, Taken(s, w).workers[w]);
  }

  lemma DrainStep(s: State, a: Action)
    requires Inv(s) && Possible(s, a) && OnlyDrains(a)
    ensures Remaining(After(s, a)) < Remaining(s)
  {
    if a.Take? {
      TakeUnfolds(s, a.w);
      hide Settled, Taken, Remaining, Inv;
      SettlingKeepsRemaining(s, a.w);
      TakingDrains(Settled(s, a.w), a.w);
    } else {
      LoadsUpdate(s.workers, a.w, After(s, a).workers[a.w]);
    }
  }

  function Elements(q: seq<nat>): set<nat> {
    if q == [] then {} else {q[0]} + Elements(q[1..])
  }

  lemma {:induction false} ElementsOf(q: seq<nat>)
    ensures |Elements(q)| <= |q| && forall x: nat :: x in Elements(q) <==> x in q
  {
    if q != [] { ElementsOf(q[1..]); }
  }

  lemma AllIdle(s: State)
    requires Counted(s) && forall w | 0 <= w < |s.workers| :: s.workers[w].Idle?
    ensures s.active == 0
  {
    ElementsOf(s.idle);
    assert Elements(s.idle) == Below(|s.workers|) + (Elements(s.idle) - Below(|s.workers|));
  }

  /** When all threads have gone idle, everything that was ever posted has run, and the throttle is off. */
  lemma AllIdleAllDone(s: State)
    requires Inv(s) && forall w | 0 <= w < |s.workers| :: s.workers[w].Idle?
    ensures s.express == s.regular == [] && !s.throttle && forall id | 0 <= id < |s.posts| :: id in s.ran
  {
    AllIdle(s);
    hide EntriesOk, InOrder, Counted;
    assert s.express == s.regular == [];
    forall id | 0 <= id < |s.posts| ensures id in s.ran {
      assert Kept(s, id);
    }
  }

  /** If from step `k` on nothing is posted or requeued, the threads take at most `Remaining` more steps. */
  lemma {:induction false} Drains(r: Run, threads: nat, k: nat)
    requires IsRun(r, threads) && k < |r.states| && forall i | k <= i < |r.actions| :: OnlyDrains(r.actions[i])
    ensures |r.actions| - k <= Remaining(r.states[k])
    decreases |r.actions| - k
  {
    if k < |r.actions| {
      InvHolds(r, threads, k);
      DrainStep(r.states[k], r.actions[k]);
      Drains(r, threads, k + 1);
    }
  }

  // ----- The throttle holds, and the EventSet is reached ---------------------------------------------

  /** `e` is an EventSet at the head of the regular queue. */
  predicate Waits(s: State, e: Entry) {
    s.regular != [] && s.regular[0] == e && e.kind.EventSet?
  }

  /** No thread runs an EventSet or is still to drop the throttle for one. */
  predicate NoDropper(s: State) {
    forall w | 0 <= w < |s.workers| :: !Dropping(s.workers[w])
  }

  /** In step `i` thread `w` goes idle although there is work. */
  predicate StopsShort(r: Run, i: nat, w: nat)
    requires i < |r.actions| && i + 1 < |r.states|
  {
    && r.actions[i] == Take(w) && w < |r.states[i + 1].workers| && r.states[i + 1].workers[w].Idle?
    && (r.states[i + 1].express != [] || r.states[i + 1].regular != [])
  }

  predicate TakesIt(r: Run, k: nat, e: Entry)
    requires k < |r.actions| && k + 1 < |r.states|
  {
    r.actions[k].Take? && r.actions[k].w < |r.states[k + 1].workers| && r.states[k + 1].workers[r.actions[k].w] == Running(Regular, e)
  }

  /** A thread goes idle with work on the queues only at an EventSet while other threads are active, and it
      leaves the throttle on. */
  lemma StopsAtEventSet(r: Run, threads: nat, i: nat, w: nat)
    requires IsRun(r, threads) && i < |r.actions| && StopsShort(r, i, w)
    ensures var s := r.states[i + 1];
            && s.express == [] && s.regular != [] && Waits(s, s.regular[0])
            && s.throttle && s.active > 0 && s.idle != [] && s.idle[|s.idle| - 1] == w
  {
    InvHolds(r, threads, i);
    TakeUnfolds(r.states[i], w);
    NoEventSetIsExpress(Settled(r.states[i], w));
  }

  lemma WaitsUnlessTaken(s: State, w: nat, e: Entry)
    requires w < |s.workers| && s.active > 0 && Waits(s, e)
    ensures Waits(Taken(s, w), e) || Taken(s, w).workers[w] == Running(Regular, e)
  {
  }

  /** Only taking it removes an EventSet from the head of the queue. */
  lemma WaitsOn(s: State, a: Action, e: Entry)
    requires Inv(s) && Possible(s, a) && Waits(s, e)
    ensures Waits(After(s, a), e) || (a.Take? && After(s, a).workers[a.w] == Running(Regular, e))
  {
    hide EntriesOk, InOrder, NothingDropped, ThrottleHasReason, NotStranded;
    if a.Take? {
      TakeUnfolds(s, a.w);
      WaitsUnlessTaken(Settled(s, a.w), a.w, e);
    }
  }

  /** The throttle is on while `e` waits, and no thread will drop it. */
  predicate Held(s: State, e: Entry) {
    Waits(s, e) && s.throttle && NoDropper(s)
  }

  /** Step `k` wakes nobody. */
  predicate WakesNobody(r: Run, k: nat)
    requires k < |r.actions| && k + 1 < |r.states|
  {
    r.states[k + 1].active <= r.states[k].active && (r.actions[k].Post? ==> r.states[k + 1].workers == r.states[k].workers)
  }

  lemma ThrottledStep(s: State, a: Action, e: Entry)
    requires Inv(s) && Possible(s, a) && Held(s, e) && !(a.Take? && After(s, a).workers[a.w] == Running(Regular, e))
    ensures Held(After(s, a), e) && After(s, a).active <= s.active
    ensures a.Post? ==> After(s, a).workers == s.workers
  {
    hide InOrder, NothingDropped, ThrottleHasReason, NotStranded;
    if a.Take? {
      TakeUnfolds(s, a.w);
      assert !Dropping(s.workers[a.w]);
      NoEventSetIsExpress(Settled(s, a.w));
    } else if a.RunEnds? {
      assert !Dropping(s.workers[a.w]);
    }
  }

  lemma HeldOn(r: Run, threads: nat, k: nat, e: Entry)
    requires IsRun(r, threads) && k < |r.actions| && Held(r.states[k], e) && !TakesIt(r, k, e)
    ensures Held(r.states[k + 1], e) && WakesNobody(r, k)
  {
    InvHolds(r, threads, k);
    hide Inv, Waits, NoDropper;
    ThrottledStep(r.states[k], r.actions[k], e);
  }

  lemma {:induction false} HeldFrom(r: Run, threads: nat, i: nat, j: nat, e: Entry)
    requires IsRun(r, threads) && i <= j <= |r.actions| && Held(r.states[i], e)
    requires forall k | i <= k < j :: !TakesIt(r, k, e)
    ensures Held(r.states[j], e) && forall k | i <= k < j :: WakesNobody(r, k)
    decreases j
  {
    if i < j {
      hide IsRun, Held, TakesIt, WakesNobody;
      HeldFrom(r, threads, i, j - 1, e);
      HeldOn(r, threads, j - 1, e);
    }
  }

  /** From the step in which a thread goes idle at an EventSet until the EventSet is taken no post wakes a thread,
      if no other thread was then at an earlier EventSet. */
  lemma ThrottleHolds(r: Run, threads: nat, i: nat, w: nat, j: nat, e: Entry)
    requires IsRun(r, threads) && i < j <= |r.actions| && StopsShort(r, i, w) && NoDropper(r.states[i + 1])
    requires Waits(r.states[i + 1], e) && forall k | i < k < j :: !TakesIt(r, k, e)
    ensures Held(r.states[j], e) && forall k | i < k < j :: WakesNobody(r, k)
  {
    StopsAtEventSet(r, threads, i, w);
    HeldFrom(r, threads, i + 1, j, e);
  }

  /** `longer` goes on from `r`, and `e` is not taken on the way. */
  predicate GoesOn(r: Run, longer: Run, e: Entry) {
    && r.states != [] && r.actions <= longer.actions && r.states <= longer.states
    && forall k | |r.states| <= k < |longer.states| :: Waits(longer.states[k], e)
  }

  lemma PostOn(r: Run, threads: nat, e: Entry) returns (longer: Run)
    requires IsRun(r, threads) && Waits(Last(r), e)
    ensures IsRun(longer, threads) && GoesOn(r, longer, e) && Last(longer) == After(Last(r), Post(ReadAhead, Express))
  {
    InvHolds(r, threads, |r.actions|);
    assert |r.states| == |r.actions| + 1;
    hide IsRun;
    longer := Extend(r, threads, Post(ReadAhead, Express), After(Last(r), Post(ReadAhead, Express)));
  }

  /** The thread at the earlier EventSet comes to drop the throttle. */
  lemma ComesToDrop(r: Run, threads: nat, e: Entry, u: nat) returns (longer: Run)
    requires IsRun(r, threads) && Waits(Last(r), e) && u < |Last(r).workers| && Dropping(Last(r).workers[u])
    ensures IsRun(longer, threads) && GoesOn(r, longer, e) && |Last(longer).workers| == |Last(r).workers|
    ensures Last(longer).workers == Last(r).workers[u := Last(longer).workers[u]]
    ensures Last(longer) == Last(r).(workers := Last(longer).workers, ran := Last(longer).ran)
    ensures Last(longer).workers[u].Ready? && Last(longer).workers[u].drop
  {
    InvHolds(r, threads, |r.actions|);
    assert |r.states| == |r.actions| + 1;
    hide IsRun;
    longer := r;
    if Last(r).workers[u].Running? {
      longer := Extend(r, threads, RunEnds(u, false), After(Last(r), RunEnds(u, false)));
    }
  }

  lemma DropsAndTakes(s: State, u: nat, e: Entry)
    requires Inv(s) && Waits(s, e) && u < |s.workers| && s.workers[u].Ready? && s.workers[u].drop && s.express != []
    ensures var s' := After(s, Take(u));
            !s'.throttle && s'.idle == s.idle && s'.active == s.active && Waits(s', e)
  {
    TakeUnfolds(s, u);
    hide InOrder, NothingDropped, ThrottleHasReason, NotStranded;
    NoEventSetIsExpress(Settled(s, u));
  }

  lemma DropOn(r: Run, threads: nat, e: Entry, u: nat) returns (longer: Run)
    requires IsRun(r, threads) && Waits(Last(r), e) && Last(r).express != [] && Last(r).idle != []
    requires u < |Last(r).workers| && Last(r).workers[u].Ready? && Last(r).workers[u].drop
    ensures IsRun(longer, threads) && GoesOn(r, longer, e) && Last(longer).active == Last(r).active + 1
  {
    InvHolds(r, threads, |r.actions|);
    assert |r.states| == |r.actions| + 1;
    hide IsRun, EntriesOk, InOrder, NothingDropped, ThrottleHasReason, NotStranded, Waits;
    DropsAndTakes(Last(r), u, e);
    hide Inv, Settled, Taken;
    longer := Extend(r, threads, Take(u), After(Last(r), Take(u)));
    longer := PostOn(longer, threads, e);
  }

  /** Otherwise that thread may drop the throttle and take an express item, and the next post wakes a thread while
      the EventSet still waits. */
  lemma ThrottleCanDrop(r: Run, threads: nat, e: Entry) returns (longer: Run)
    requires IsRun(r, threads) && Waits(Last(r), e) && Last(r).throttle && Last(r).idle != [] && !NoDropper(Last(r))
    ensures IsRun(longer, threads) && GoesOn(r, longer, e) && Last(longer).active == Last(r).active + 1
  {
    var u :| 0 <= u < |Last(r).workers| && Dropping(Last(r).workers[u]);
    assert |r.states| == |r.actions| + 1;
    hide IsRun, Waits, NoDropper, Dropping;
    var r1 := ComesToDrop(r, threads, e, u);
    var r2 := PostOn(r1, threads, e);
    longer := DropOn(r2, threads, e, u);
  }

  lemma FirstEventSet() returns (r: Run)
    ensures IsRun(r, 2) && r.states != [] && |r.actions| == 2
    ensures Last(r) == State([], [], false, 1, [1], [Running(Regular, Entry(0, EventSet)), Idle], [Posted(EventSet, Regular)], {})
  {
    r := Run([], [Initial(2)]);
    hide IsRun;
    assert Initial(2).workers == [Idle, Idle] && Initial(2).idle == [0, 1];
    var s := State([], [Entry(0, EventSet)], false, 1, [1], [Ready(false, Nothing), Idle], [Posted(EventSet, Regular)], {});
    r := Extend(r, 2, Post(EventSet, Regular), s);
    s := s.(regular := [], workers := [Running(Regular, Entry(0, EventSet)), Idle]);
    r := Extend(r, 2, Take(0), s);
  }

  lemma TwoEventSets() returns (r: Run)
    ensures IsRun(r, 2) && r.states != [] && |r.actions| == 4 && |r.states| == 5 && StopsShort(r, 3, 1)
    ensures Last(r) == State([], [Entry(1, EventSet)], true, 1, [1], [Running(Regular, Entry(0, EventSet)), Idle],
                             [Posted(EventSet, Regular), Posted(EventSet, Regular)], {})
  {
    r := FirstEventSet();
    assert |r.states| == 3;
    hide IsRun;
    var s := Last(r).(regular := [Entry(1, EventSet)], active := 2, idle := [], posts := Last(r).posts + [Posted(EventSet, Regular)],
                      workers := [Running(Regular, Entry(0, EventSet)), Ready(false, Nothing)]);
    r := Extend(r, 2, Post(EventSet, Regular), s);
    s := s.(throttle := true, active := 1, idle := [1], workers := [Running(Regular, Entry(0, EventSet)), Idle]);
    r := Extend(r, 2, Take(1), s);
  }

  /** Such a run: the second of two EventSets waits with the throttle on, and the thread at the first drops it. */
  lemma EarlierEventSetDrops() returns (r: Run)
    ensures IsRun(r, 2) && |r.actions| > 3 && StopsShort(r, 3, 1)
    ensures Last(r).active > r.states[4].active && forall k | 4 <= k < |r.states| :: Waits(r.states[k], Entry(1, EventSet))
  {
    var stopped := TwoEventSets();
    hide IsRun, StopsShort;
    assert Dropping(Last(stopped).workers[0]);
    r := ThrottleCanDrop(stopped, 2, Entry(1, EventSet));
    SameSteps(stopped, r, 3, 1);
  }

  lemma SameSteps(r: Run, longer: Run, i: nat, w: nat)
    requires r.actions <= longer.actions && r.states <= longer.states && i < |r.actions| && i + 1 < |r.states| && StopsShort(r, i, w)
    ensures StopsShort(longer, i, w)
  {
    assert longer.states[i + 1] == r.states[i + 1];
  }

  /** How many more steps the threads can take before they reach an EventSet that heads the regular queue. A thread
      that will drop the throttle can let every thread come once more. */
  function Urgent(s: State): nat {
    3 * |s.express| + Hurries(s.workers, |s.workers|) + if s.throttle then 0 else |s.idle|
  }

  function Hurry(w: Worker, threads: nat): nat {
    (match w
     case Idle => 0
     case Ready(_, back) => if back.Again? && back.queue.Express? then 4 else 1
     case Running(_, _) => 2)
    + if Dropping(w) then threads else 0
  }

  function Hurries(ws: seq<Worker>, threads: nat): nat {
    if ws == [] then 0 else Hurry(ws[0], threads) + Hurries(ws[1..], threads)
  }

  lemma {:induction false} HurriesUpdate(ws: seq<Worker>, w: nat, now: Worker, threads: nat)
    requires w < |ws|
    ensures Hurries(ws[w := now], threads) == Hurries(ws, threads) - Hurry(ws[w], threads) + Hurry(now, threads)
  {
    if w == 0 {
      assert ws[w := now][1..] == ws[1..];
    } else {
      HurriesUpdate(ws[1..], w - 1, now, threads);
      assert ws[w := now][1..] == ws[1..][w - 1 := now];
    }
  }

  /** The threads' own steps among the steps `i` to `j`. */
  function OwnSteps(actions: seq<Action>, i: nat, j: nat): nat
    requires i <= j <= |actions|
    decreases j
  {
    if i == j then 0 else OwnSteps(actions, i, j - 1) + if actions[j - 1].Post? then 0 else 1
  }

  /** The step puts an item on the express queue, or decides to put one back there. */
  predicate FillsExpress(s: State, a: Action) {
    match a
    case Post(_, queue) => queue.Express?
    case Take(_) => false
    case RunEnds(w, requeue) => requeue && w < |s.workers| && s.workers[w].Running? && s.workers[w].queue.Express?
  }

  function ExpressItems(r: Run, i: nat, j: nat): nat
    requires i <= j <= |r.actions| && j <= |r.states|
    decreases j
  {
    if i == j then 0 else ExpressItems(r, i, j - 1) + if FillsExpress(r.states[j - 1], r.actions[j - 1]) then 1 else 0
  }

  lemma PostUrgent(s: State, kind: Kind, queue: Queue)
    requires Counted(s)
    ensures Urgent(AfterPost(s, kind, queue)) <= Urgent(s) + if queue.Express? then 3 else 0
  {
    if !s.throttle && s.idle != [] { HurriesUpdate(s.workers, s.idle[0], Ready(false, Nothing), |s.workers|); }
  }

  lemma RunUrgent(s: State, w: nat, requeue: bool)
    requires w < |s.workers| && s.workers[w].Running? && (requeue ==> s.workers[w].entry.kind.WriteBehind?)
    ensures var s' := AfterRun(s, w, requeue);
            Urgent(s') + 1 <= Urgent(s) + if requeue && s.workers[w].queue.Express? then 3 else 0
  {
    HurriesUpdate(s.workers, w, AfterRun(s, w, requeue).workers[w], |s.workers|);
  }

  lemma SettledUrgent(s: State, w: nat)
    requires Counted(s) && w < |s.workers| && s.workers[w].Ready?
    ensures Urgent(Settled(s, w)) <= Urgent(s)
  {
    HurriesUpdate(s.workers, w, Ready(false, Nothing), |s.workers|);
  }

  lemma TakenUrgent(s: State, w: nat, e: Entry)
    requires Counted(s) && EntriesOk(s) && w < |s.workers| && s.workers[w] == Ready(false, Nothing) && s.active > 0
    requires Waits(s, e) && Taken(s, w).workers[w] != Running(Regular, e)
    ensures Urgent(Taken(s, w)) < Urgent(s)
  {
    NoEventSetIsExpress(s);
    HurriesUpdate(s.workers, w, Taken(s, w).workers[w], |s.workers|);
  }

  lemma UrgentStep(s: State, a: Action, e: Entry)
    requires Inv(s) && Possible(s, a) && Waits(s, e) && !(a.Take? && After(s, a).workers[a.w] == Running(Regular, e))
    ensures Urgent(After(s, a)) + (if a.Post? then 0 else 1) <= Urgent(s) + if FillsExpress(s, a) then 3 else 0
  {
    match a
    case Post(kind, queue) => PostUrgent(s, kind, queue);
    case RunEnds(w, requeue) => RunUrgent(s, w, requeue);
    case Take(w) =>
      TakeUnfolds(s, w);
      hide Urgent, Taken;
      SettledUrgent(s, w);
      TakenUrgent(Settled(s, w), w, e);
  }

  lemma UrgentOn(r: Run, threads: nat, k: nat, e: Entry)
    requires IsRun(r, threads) && k < |r.actions| && Waits(r.states[k], e) && !TakesIt(r, k, e)
    ensures Waits(r.states[k + 1], e)
    ensures Urgent(r.states[k + 1]) + (if r.actions[k].Post? then 0 else 1) <=
            Urgent(r.states[k]) + if FillsExpress(r.states[k], r.actions[k]) then 3 else 0
  {
    InvHolds(r, threads, k);
    hide Inv, Waits, Urgent, FillsExpress;
    WaitsOn(r.states[k], r.actions[k], e);
    UrgentStep(r.states[k], r.actions[k], e);
  }

  /** Whatever is posted to the regular queue, the threads take a bounded number of steps before one of them takes the
      EventSet at its head; each item that comes onto the express queue meanwhile allows three more. */
  lemma {:induction false} EventSetIsReached(r: Run, threads: nat, i: nat, j: nat, e: Entry)
    requires IsRun(r, threads) && i <= j <= |r.actions| && Waits(r.states[i], e)
    requires forall k | i <= k < j :: !TakesIt(r, k, e)
    ensures Waits(r.states[j], e)
    ensures OwnSteps(r.actions, i, j) + Urgent(r.states[j]) <= Urgent(r.states[i]) + 3 * ExpressItems(r, i, j)
    decreases j
  {
    if i < j {
      hide IsRun, Waits, TakesIt, Urgent, FillsExpress;
      EventSetIsReached(r, threads, i, j - 1, e);
      UrgentOn(r, threads, j - 1, e);
    }
  }

  /** While an EventSet waits some thread can take a step. */
  lemma SomeThreadCanStep(s: State, e: Entry) returns (a: Action)
    requires Inv(s) && Waits(s, e)
    ensures Possible(s, a) && !a.Post?
  {
    hide EntriesOk, InOrder, NothingDropped, ThrottleHasReason;
    if w :| 0 <= w < |s.workers| && !s.workers[w].Idle? {
      a := if s.workers[w].Ready? then Take(w) else RunEnds(w, false);
    } else {
      AllIdle(s);
      assert false;
    }
  }
}
